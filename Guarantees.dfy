/** What `run` promises about a whole validator: the result of a fresh
    validator, of a value of the wrong type, of `nonEmpty`, `valid`, `prop`
    and `each`, and the shape of the nested results. */
module RunGuarantees {
  import opened Wrappers
  import opened JsValues
  import opened Schematics
  import opened SchematicsProperties

  /** The result of a run in which no child run was launched. */
  function Plain(k: Kind, valid: bool, msg: Option<string>, x: Value, keep: bool): Result
  {
    Result(valid, msg, DetailOf(k, map[], []), if valid && keep then Some(x) else None)
  }

  /** `run` through the fold over finished child runs. */
  lemma OutcomeByFold(G: Schema, v: Validator, x: Value, keep: bool)
    requires Closed(G) && v in G
    ensures forall l :: l in Phase1(G[v], x).launches ==> LaunchBelow(l, x) && l.child in G
    ensures var s := Phase1(G[v], x);
            var a := Fold(Acc(s.valid, s.msg, map[], []), Resolved(G, s.launches, |s.launches|, x));
            Outcome(G, v, x, keep) == Result(a.valid, a.msg, DetailOf(v.kind, a.why, a.whys),
                                             if a.valid && keep then Some(x) else None)
  {
    Phase1Launches(G[v], x);
  }

  /** A run whose walk launched nothing has the walk's verdict and no child results. */
  lemma NothingLaunched(G: Schema, v: Validator, x: Value, keep: bool)
    requires Closed(G) && v in G && Phase1(G[v], x).launches == []
    ensures Outcome(G, v, x, keep) == Plain(v.kind, Phase1(G[v], x).valid, Phase1(G[v], x).msg, x, keep)
  {
  }

  /** A value its type check rejects fails with exactly the type check's
      message; no other rule starts, so nothing is recorded under `why` or
      `whys`, and no `value` is attached. */
  lemma WrongTypeRejected(G: Schema, v: Validator, x: Value, keep: bool)
    requires Closed(G) && v in G && !HasKind(v.kind, x)
    ensures Outcome(G, v, x, keep) == Plain(v.kind, false, Some(G[v][0].msg), x, keep)
  {
    EarliestFailureWins(G[v], x);
    assert FirstFailure(G[v], x) == Some(0);
    assert G[v][..0] == [];
    NothingLaunched(G, v, x, keep);
  }

  /** A validator fresh from its factory accepts exactly the values of its
      kind, echoing the value back when asked to. */
  lemma FreshValidatorOutcome(G: Schema, v: Validator, x: Value, keep: bool)
    requires Closed(G) && v in G && |G[v]| == 1
    ensures Outcome(G, v, x, keep) == if HasKind(v.kind, x) then Plain(v.kind, true, None, x, keep)
                                      else Plain(v.kind, false, Some(G[v][0].msg), x, keep)
  {
    if HasKind(v.kind, x) {
      assert G[v][..0] == [];
      NothingLaunched(G, v, x, keep);
    } else {
      WrongTypeRejected(G, v, x, keep);
    }
  }

  /** `str(m1).nonEmpty(m2)` or `arr(m1).nonEmpty(m2)`: a value of the kind
      fails exactly when its length is 0. */
  lemma NonEmptyOutcome(G: Schema, v: Validator, x: Value, keep: bool, m1: string, m2: string)
    requires Closed(G) && v in G && G[v] == [TypeRule(v.kind, m1), NonEmptyRule(m2)]
    ensures Outcome(G, v, x, keep) ==
              if !HasKind(v.kind, x) then Plain(v.kind, false, Some(m1), x, keep)
              else if HasZeroLength(x) then Plain(v.kind, false, Some(m2), x, keep)
              else Plain(v.kind, true, None, x, keep)
  {
    var rules := G[v];
    assert rules[..1] == [TypeRule(v.kind, m1)] && rules[..1][..0] == [];
    assert Phase1(rules[..1], x) == Step(Phase1([], x), rules[0], x);
    assert Phase1(rules, x) == Step(Phase1(rules[..1], x), rules[1], x);
    NothingLaunched(G, v, x, keep);
  }

  /** `date(m1).valid(m2)`: a Date fails exactly when its time is NaN. */
  lemma ValidDateOutcome(G: Schema, v: Validator, x: Value, keep: bool, m1: string, m2: string)
    requires Closed(G) && v in G && G[v] == [TypeRule(DateKind, m1), ValidDateRule(m2)]
    ensures Outcome(G, v, x, keep) ==
              if !IsDate(x) then Plain(DateKind, false, Some(m1), x, keep)
              else if x.timeIsNaN then Plain(DateKind, false, Some(m2), x, keep)
              else Plain(DateKind, true, None, x, keep)
  {
    var rules := G[v];
    assert rules[..1] == [TypeRule(DateKind, m1)] && rules[..1][..0] == [];
    assert Phase1(rules[..1], x) == Step(Phase1([], x), rules[0], x);
    assert Phase1(rules, x) == Step(Phase1(rules[..1], x), rules[1], x);
    NothingLaunched(G, v, x, keep);
  }

  // ----- where the `why` entries come from -----

  /** Every name recorded in `why` is the name of a property launch of the walk. */
  lemma WhyNamesLaunched(G: Schema, v: Validator, x: Value, keep: bool)
    requires Closed(G) && v in G
    ensures var r := Outcome(G, v, x, keep);
            r.detail.Why? ==> forall name :: name in r.detail.why ==>
              exists l :: l in Phase1(G[v], x).launches && l.LaunchProp? && l.name == name
  {
    var s := Phase1(G[v], x);
    var ls := s.launches;
    var a0 := Acc(s.valid, s.msg, map[], []);
    OutcomeByFold(G, v, x, keep);
    var ds := Resolved(G, ls, |ls|, x);
    FoldWhyKeys(a0, ds);
    ResolvedAt(G, ls, |ls|, x);
    forall name | name in Fold(a0, ds).why ensures exists l :: l in ls && l.LaunchProp? && l.name == name {
      var j :| 0 <= j < |ds| && ds[j].PropDone? && ds[j].name == name;
      assert ls[j] in ls && ds[j] == Resolve(G, ls[j], x);
    }
  }

  /** The `why` entry of a property launch that no later launch overwrites is
      the child's result on the property's value, and an invalid one makes
      the parent invalid. */
  lemma WhyEntryOfLaunch(G: Schema, v: Validator, x: Value, keep: bool, j: nat)
    requires Closed(G) && v in G && v.kind == ObjKind
    requires j < |Phase1(G[v], x).launches| && Phase1(G[v], x).launches[j].LaunchProp?
    requires var ls := Phase1(G[v], x).launches;
             forall k :: j < k < |ls| && ls[k].LaunchProp? ==> ls[k].name != ls[j].name
    ensures var l := Phase1(G[v], x).launches[j];
            var r := Outcome(G, v, x, keep);
            && l in Phase1(G[v], x).launches && l.child in G
            && l.name in r.detail.why && r.detail.why[l.name] == Outcome(G, l.child, l.sub, false)
            && (!r.detail.why[l.name].valid ==> !r.valid)
  {
    var s := Phase1(G[v], x);
    var ls := s.launches;
    var a0 := Acc(s.valid, s.msg, map[], []);
    OutcomeByFold(G, v, x, keep);
    var ds := Resolved(G, ls, |ls|, x);
    ResolvedAt(G, ls, |ls|, x);
    assert ls[j] in ls;
    forall k | j < k < |ds| && ds[k].PropDone? ensures ds[k].name != ds[j].name {
      assert ls[k] in ls && ls[k].LaunchProp?;
    }
    FoldWhyEntry(a0, ds, j);
    FoldValid(a0, ds);
  }

  // ----- prop -----

  /** The walk reaching a property rule whose property is absent stops there
      with the missing-property message. */
  lemma {:induction false} MissingPropertyWalk(rules: seq<Rule>, x: Value, i: nat)
    requires i < |rules| && rules[i].PropRule?
    requires Phase1(rules[..i], x).valid && OwnProperty(x, rules[i].name).None?
    ensures Phase1(rules, x) == Sync(false, Some(MissingPropertyMessage(rules[i].name)), Phase1(rules[..i], x).launches)
  {
    EarliestFailureWins(rules[..i], x);
    EarliestFailureWins(rules, x);
    forall j | 0 <= j < i ensures !Invoke(rules[j], x).Fail? {
      assert rules[..i][j] == rules[j];
    }
    assert FirstFailure(rules, x) == Some(i);
  }

  /** A property rule reached with the property absent fails with the
      missing-property message; the child is not run, no later rule starts,
      and `why` has no entry for the name. */
  lemma MissingPropertyRejected(G: Schema, v: Validator, x: Value, keep: bool, i: nat)
    requires Closed(G) && v in G && i < |G[v]| && G[v][i].PropRule?
    requires Phase1(G[v][..i], x).valid && OwnProperty(x, G[v][i].name).None?
    ensures Phase1(G[v], x).launches == Phase1(G[v][..i], x).launches
    ensures var r := Outcome(G, v, x, keep);
            && !r.valid && r.msg == Some(MissingPropertyMessage(G[v][i].name))
            && r.detail.Why? && G[v][i].name !in r.detail.why
  {
    var rules := G[v];
    MissingPropertyWalk(rules, x, i);
    LaunchesMatchValue(rules[..i], x);
    WhyNamesLaunched(G, v, x, keep);
  }

  /** The walk reaching a property rule whose property is present launches
      the child on the property's value, after the earlier launches; the
      property launches after it come from later rules. */
  lemma {:induction false} PresentPropertyWalk(rules: seq<Rule>, x: Value, i: nat)
    requires i < |rules| && rules[i].PropRule?
    requires Phase1(rules[..i], x).valid && OwnProperty(x, rules[i].name).Some?
    ensures var p := Phase1(rules[..i], x).launches;
            var ls := Phase1(rules, x).launches;
            && |p| < |ls| && ls[|p|] == LaunchProp(rules[i].name, rules[i].child, OwnProperty(x, rules[i].name).value)
            && forall k :: |p| < k < |ls| && ls[k].LaunchProp? ==> ls[k].name in PropNames(rules[i + 1..])
  {
    var p := Phase1(rules[..i], x).launches;
    var l := LaunchProp(rules[i].name, rules[i].child, OwnProperty(x, rules[i].name).value);
    assert Invoke(rules[i], x) == Launched(l);
    AppendedRuleRunsLast(rules[..i], rules[i], x);
    assert rules[..i + 1] == rules[..i] + [rules[i]];
    var q := Phase1(rules[..i + 1], x).launches;
    assert q == p + [l];
    LaterLaunches(rules, i + 1, x);
    var ls := Phase1(rules, x).launches;
    assert ls[..|q|] == q;
    assert ls[|p|] == q[|p|];
  }

  /** A property rule reached with the property present records the child's
      result on the property's value under `why[name]` (when no later rule
      names the same property); an invalid child makes the parent invalid,
      and the message is still only the one phase 1 set. */
  lemma PresentPropertyRecorded(G: Schema, v: Validator, x: Value, keep: bool, i: nat)
    requires Closed(G) && v in G && i < |G[v]| && G[v][i].PropRule?
    requires Phase1(G[v][..i], x).valid && OwnProperty(x, G[v][i].name).Some?
    requires G[v][i].name !in PropNames(G[v][i + 1..])
    ensures G[v][i].child in G
    ensures var r := Outcome(G, v, x, keep);
            var name := G[v][i].name;
            var cr := Outcome(G, G[v][i].child, OwnProperty(x, name).value, false);
            && r.detail.Why? && name in r.detail.why && r.detail.why[name] == cr
            && (!cr.valid ==> !r.valid)
            && r.msg == Phase1(G[v], x).msg
  {
    var rules := G[v];
    assert rules[i].child in Children(rules);
    PresentPropertyWalk(rules, x, i);
    WhyEntryOfLaunch(G, v, x, keep, |Phase1(rules[..i], x).launches|);
  }

  /** `obj(m).prop(name, c)`: a non-object fails with `m`, an object without
      the property fails with the missing-property message, and otherwise the
      parent is valid exactly when the child is, records the child's result
      as its only `why` entry and sets no message. */
  lemma SinglePropOutcome(G: Schema, v: Validator, x: Value, keep: bool, m: string, name: string, c: Validator)
    requires Closed(G) && v in G && G[v] == [TypeRule(ObjKind, m), PropRule(name, c)]
    ensures c in G
    ensures Outcome(G, v, x, keep) ==
              if !IsObject(x) then Plain(ObjKind, false, Some(m), x, keep)
              else if OwnProperty(x, name).None? then Plain(ObjKind, false, Some(MissingPropertyMessage(name)), x, keep)
              else
                var cr := Outcome(G, c, OwnProperty(x, name).value, false);
                Result(cr.valid, None, Why(map[name := cr]), if cr.valid && keep then Some(x) else None)
  {
    var rules := G[v];
    assert rules[1].child in Children(rules);
    assert rules[..1] == [TypeRule(ObjKind, m)] && rules[..1][..0] == [];
    assert Phase1(rules[..1], x) == Step(Phase1([], x), rules[0], x);
    assert Phase1(rules, x) == Step(Phase1(rules[..1], x), rules[1], x);
    if IsObject(x) && OwnProperty(x, name).Some? {
      var y := OwnProperty(x, name).value;
      var ls := [LaunchProp(name, c, y)];
      assert Phase1(rules, x) == Sync(true, None, ls);
      var cr := Outcome(G, c, y, false);
      assert Resolved(G, ls, 1, x) == [PropDone(name, cr)];
      var a0 := Acc(true, None, map[], []);
      FoldSnoc(a0, [], PropDone(name, cr));
      OutcomeByFold(G, v, x, keep);
    } else {
      NothingLaunched(G, v, x, keep);
    }
  }

  // ----- each -----

  /** `arr(m).each(c)`: a non-array fails with `m`; on an array the child
      runs on every element, `whys[i]` is its result on element `i`, and the
      parent is valid exactly when every element is; an empty array is valid
      with `whys == []`. */
  lemma SingleEachOutcome(G: Schema, v: Validator, x: Value, keep: bool, m: string, c: Validator)
    requires Closed(G) && v in G && G[v] == [TypeRule(ArrKind, m), EachRule(c)]
    ensures c in G
    ensures !IsArray(x) ==> Outcome(G, v, x, keep) == Plain(ArrKind, false, Some(m), x, keep)
    ensures IsArray(x) ==>
              var r := Outcome(G, v, x, keep);
              && r.msg.None? && r.detail.Whys? && |r.detail.whys| == |x.elems|
              && (forall i :: 0 <= i < |x.elems| ==> r.detail.whys[i] == Outcome(G, c, x.elems[i], false))
              && (r.valid <==> forall i :: 0 <= i < |x.elems| ==> r.detail.whys[i].valid)
    ensures x == JArr([]) ==> Outcome(G, v, x, keep) == Plain(ArrKind, true, None, x, keep)
  {
    var rules := G[v];
    assert rules[1].child in Children(rules);
    assert rules[..1] == [TypeRule(ArrKind, m)] && rules[..1][..0] == [];
    assert Phase1(rules[..1], x) == Step(Phase1([], x), rules[0], x);
    assert Phase1(rules, x) == Step(Phase1(rules[..1], x), rules[1], x);
    if IsArray(x) {
      var xs := x.elems;
      var ls := [LaunchEach(c, xs)];
      assert Phase1(rules, x) == Sync(true, None, ls);
      var rs := RunAll(G, c, xs, |xs|, x);
      assert Resolved(G, ls, 1, x) == [EachDone(rs)];
      var a0 := Acc(true, None, map[], []);
      FoldSnoc(a0, [], EachDone(rs));
      OutcomeByFold(G, v, x, keep);
      RunAllAt(G, c, xs, |xs|, x);
    } else {
      NothingLaunched(G, v, x, keep);
    }
  }

  /** The walk reaching an `each` rule launches the child on the elements of
      `x`, after the earlier launches; when no later rule is an `each` rule,
      every launch after it is a property launch. */
  lemma EachWalk(rules: seq<Rule>, x: Value, i: nat)
    requires i < |rules| && rules[i].EachRule? && Phase1(rules[..i], x).valid
    requires forall k :: i < k < |rules| ==> !rules[k].EachRule?
    ensures var p := Phase1(rules[..i], x).launches;
            var ls := Phase1(rules, x).launches;
            && |p| < |ls| && ls[|p|] == LaunchEach(rules[i].child, Elements(x))
            && forall k :: |p| < k < |ls| ==> ls[k].LaunchProp?
  {
    var p := Phase1(rules[..i], x).launches;
    var l := LaunchEach(rules[i].child, Elements(x));
    assert Invoke(rules[i], x) == Launched(l);
    AppendedRuleRunsLast(rules[..i], rules[i], x);
    assert rules[..i + 1] == rules[..i] + [rules[i]];
    var q := Phase1(rules[..i + 1], x).launches;
    assert q == p + [l];
    LaterLaunches(rules, i + 1, x);
    LaterLaunchesAreProps(rules, i + 1, x);
    var ls := Phase1(rules, x).launches;
    assert ls[..|q|] == q;
    assert ls[|p|] == q[|p|];
  }

  /** The finished runs behind launches whose `each` launches all run on
      the same elements: entry `j` of an `each` launch is its element
      results, no later entry is an `each` run, and no `each` run delivers
      more results than there are elements. */
  lemma ResolvedEach(G: Schema, ls: seq<Launch>, x: Value, j: nat)
    requires Closed(G) && forall l :: l in ls ==> LaunchBelow(l, x) && l.child in G
    requires j < |ls| && ls[j].LaunchEach?
    requires forall k :: 0 <= k < |ls| && ls[k].LaunchEach? ==> ls[k].subs == ls[j].subs
    requires forall k :: j < k < |ls| ==> !ls[k].LaunchEach?
    ensures ls[j] in ls
    ensures var ds := Resolved(G, ls, |ls|, x);
            && ds[j] == EachDone(RunAll(G, ls[j].child, ls[j].subs, |ls[j].subs|, x))
            && (forall k :: j < k < |ds| ==> !ds[k].EachDone?)
            && (forall k :: 0 <= k < |ds| && ds[k].EachDone? ==> |ds[k].results| <= |ls[j].subs|)
  {
    ResolvedAt(G, ls, |ls|, x);
    assert ls[j] in ls;
    forall k | 0 <= k < |ls| ensures ls[k] in ls {
    }
  }

  /** The `whys` of the launch of an `each` rule that no later `each`
      launch overwrites hold the child's result on every element; an invalid
      one makes the parent invalid, and the message is the walk's. */
  lemma EachEntryOfLaunch(G: Schema, v: Validator, x: Value, keep: bool, j: nat)
    requires Closed(G) && v in G && v.kind == ArrKind
    requires j < |Phase1(G[v], x).launches| && Phase1(G[v], x).launches[j].LaunchEach?
    requires var ls := Phase1(G[v], x).launches;
             forall k :: j < k < |ls| ==> !ls[k].LaunchEach?
    ensures var l := Phase1(G[v], x).launches[j];
            var r := Outcome(G, v, x, keep);
            && l in Phase1(G[v], x).launches && l.child in G
            && |r.detail.whys| == |l.subs|
            && (forall k :: 0 <= k < |l.subs| ==> r.detail.whys[k] == Outcome(G, l.child, l.subs[k], false))
            && (!AllValid(r.detail.whys) ==> !r.valid)
            && r.msg == Phase1(G[v], x).msg
  {
    var s := Phase1(G[v], x);
    var ls := s.launches;
    var a0 := Acc(s.valid, s.msg, map[], []);
    OutcomeByFold(G, v, x, keep);
    LaunchesMatchValue(G[v], x);
    var l := ls[j];
    assert l in ls;
    forall k | 0 <= k < |ls| && ls[k].LaunchEach? ensures ls[k].subs == l.subs {
      assert ls[k] in ls;
    }
    ResolvedEach(G, ls, x, j);
    var ds := Resolved(G, ls, |ls|, x);
    FoldWhysExact(a0, ds, j);
    RunAllAt(G, l.child, l.subs, |l.subs|, x);
    FoldValid(a0, ds);
  }

  /** An `each` rule reached on an array, with no `each` rule after it,
      records the child's result on element `k` as `whys[k]` for every
      index; an invalid element makes the parent invalid, and the message
      is still only the one phase 1 set. */
  lemma EachRecorded(G: Schema, v: Validator, x: Value, keep: bool, i: nat)
    requires Closed(G) && v in G && i < |G[v]| && G[v][i].EachRule?
    requires Phase1(G[v][..i], x).valid && x.JArr?
    requires forall k :: i < k < |G[v]| ==> !G[v][k].EachRule?
    ensures G[v][i].child in G
    ensures var r := Outcome(G, v, x, keep);
            && r.detail.Whys? && |r.detail.whys| == |x.elems|
            && (forall k :: 0 <= k < |x.elems| ==> r.detail.whys[k] == Outcome(G, G[v][i].child, x.elems[k], false))
            && (!AllValid(r.detail.whys) ==> !r.valid)
            && r.msg == Phase1(G[v], x).msg
  {
    var rules := G[v];
    assert rules[i].child in Children(rules);
    assert Allowed(v.kind, rules[i]);
    EachWalk(rules, x, i);
    EachEntryOfLaunch(G, v, x, keep, |Phase1(rules[..i], x).launches|);
  }

  // ----- the nested results -----

  /** Child runs are made with value retention off, so no result nested
      under `why` or `whys` carries a `value`. */
  lemma ChildResultsCarryNoValue(G: Schema, v: Validator, x: Value, keep: bool)
    requires Closed(G) && v in G
    ensures var r := Outcome(G, v, x, keep);
            && (r.detail.Why? ==> forall name :: name in r.detail.why ==> r.detail.why[name].value.None?)
            && (r.detail.Whys? ==> forall i :: 0 <= i < |r.detail.whys| ==> r.detail.whys[i].value.None?)
  {
    var s := Phase1(G[v], x);
    var ls := s.launches;
    var a0 := Acc(s.valid, s.msg, map[], []);
    OutcomeByFold(G, v, x, keep);
    ResolvedNoValue(G, ls, |ls|, x);
    FoldPreserves(a0, Resolved(G, ls, |ls|, x), NoValue);
  }

  predicate NoValue(r: Result) { r.value.None? }

  lemma {:induction false} ResolvedNoValue(G: Schema, ls: seq<Launch>, n: nat, x: Value)
    requires Closed(G) && n <= |ls|
    requires forall l :: l in ls ==> LaunchBelow(l, x) && l.child in G
    ensures forall j :: 0 <= j < n ==> DoneSatisfies(Resolved(G, ls, n, x)[j], NoValue)
  {
    if n > 0 {
      ResolvedNoValue(G, ls, n - 1, x);
      assert ls[n - 1] in ls;
      var l := ls[n - 1];
      var d := Resolve(G, l, x);
      match l {
        case LaunchProp(name, c, y) =>
          assert d == PropDone(name, Outcome(G, c, y, false));
        case LaunchEach(c, ys) =>
          var rs := RunAll(G, c, ys, |ys|, x);
          assert d == EachDone(rs);
          RunAllAt(G, c, ys, |ys|, x);
          forall i | 0 <= i < |rs| ensures NoValue(rs[i]) {
            assert rs[i] == Outcome(G, c, ys[i], false);
          }
      }
      assert DoneSatisfies(d, NoValue);
      assert Resolved(G, ls, n, x) == Resolved(G, ls, n - 1, x) + [d];
    }
  }

  /** A result is valid throughout: it is valid and so is every result
      nested under its `why` and `whys`, at every depth. */
  ghost predicate TreeValid(r: Result)
    decreases r
  {
    && r.valid
    && match r.detail
       case NoDetail => true
       case Why(w) => forall name :: name in w ==> TreeValid(w[name])
       case Whys(ws) => forall i :: 0 <= i < |ws| ==> TreeValid(ws[i])
  }

  /** A valid result has only valid results nested in it, at every depth: a
      parent is never reported valid over an invalid child. */
  lemma {:induction false} ValidTreeConsistent(G: Schema, v: Validator, x: Value, keep: bool)
    requires Closed(G) && v in G
    ensures Outcome(G, v, x, keep).valid ==> TreeValid(Outcome(G, v, x, keep))
    decreases Rank(x), x, 1, 0
  {
    var s := Phase1(G[v], x);
    var ls := s.launches;
    var a0 := Acc(s.valid, s.msg, map[], []);
    OutcomeByFold(G, v, x, keep);
    var ds := Resolved(G, ls, |ls|, x);
    if Outcome(G, v, x, keep).valid {
      FoldValid(a0, ds);
      ResolvedTreeValid(G, ls, |ls|, x);
      FoldPreserves(a0, ds, TreeValid);
    }
  }

  lemma {:induction false} ResolvedTreeValid(G: Schema, ls: seq<Launch>, n: nat, x: Value)
    requires Closed(G) && n <= |ls|
    requires forall l :: l in ls ==> LaunchBelow(l, x) && l.child in G
    ensures forall j :: 0 <= j < n && DoneValid(Resolved(G, ls, n, x)[j]) ==>
              DoneSatisfies(Resolved(G, ls, n, x)[j], TreeValid)
    decreases Rank(x), x, 0, n
  {
    if n > 0 {
      ResolvedTreeValid(G, ls, n - 1, x);
      assert ls[n - 1] in ls;
      var l := ls[n - 1];
      var d := Resolve(G, l, x);
      match l {
        case LaunchProp(name, c, y) =>
          assert d == PropDone(name, Outcome(G, c, y, false));
          ValidTreeConsistent(G, c, y, false);
        case LaunchEach(c, ys) =>
          var rs := RunAll(G, c, ys, |ys|, x);
          assert d == EachDone(rs);
          RunAllAt(G, c, ys, |ys|, x);
          forall i | 0 <= i < |rs| && rs[i].valid ensures TreeValid(rs[i]) {
            assert ys[i] in ys;
            ValidTreeConsistent(G, c, ys[i], false);
          }
      }
      assert DoneValid(d) ==> DoneSatisfies(d, TreeValid);
      assert Resolved(G, ls, n, x) == Resolved(G, ls, n - 1, x) + [d];
    }
  }
}
