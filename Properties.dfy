/** What a run of a validator promises, stated over the specification of
    `run` (`Phase1`, `Fold`, `Outcome`) and proved for every input. */
module SchematicsProperties {
  import opened Wrappers
  import opened JsValues
  import opened Schematics

  // ----- phase 1: the guarded walk -----

  /** The position of the first rule whose body fails synchronously on `x`,
      found without the accumulator: an independent account of the guards. */
  function FirstFailure(rules: seq<Rule>, x: Value): (r: Option<nat>)
    ensures r.Some? ==> r.value < |rules| && Invoke(rules[r.value], x).Fail?
    ensures forall j :: 0 <= j < |rules| && (r.None? || j < r.value) ==> !Invoke(rules[j], x).Fail?
  {
    if rules == [] then None
    else
      match FirstFailure(rules[..|rules| - 1], x)
      case Some(i) => Some(i)
      case None => if Invoke(rules[|rules| - 1], x).Fail? then Some(|rules| - 1) else None
  }

  /** The walk fails exactly when some rule's body fails; the message is the
      one of the earliest failing rule, and only the rules before it launched
      child runs: once `result.valid` is false no later rule starts. */
  lemma {:induction false} EarliestFailureWins(rules: seq<Rule>, x: Value)
    ensures Phase1(rules, x).valid <==> FirstFailure(rules, x).None?
    ensures FirstFailure(rules, x).Some? ==>
              var i := FirstFailure(rules, x).value;
              Phase1(rules, x) == Sync(false, Some(Invoke(rules[i], x).msg), Phase1(rules[..i], x).launches)
  {
    if rules != [] {
      var n := |rules|;
      var p := rules[..n - 1];
      EarliestFailureWins(p, x);
      assert Phase1(rules, x) == Step(Phase1(p, x), rules[n - 1], x);
      match FirstFailure(p, x) {
        case Some(i) =>
          assert FirstFailure(rules, x) == Some(i);
          assert p[i] == rules[i] && p[..i] == rules[..i];
        case None =>
          assert Phase1(p, x).valid;
          if Invoke(rules[n - 1], x).Fail? {
            assert FirstFailure(rules, x) == Some(n - 1);
            assert rules[..n - 1] == p;
          } else {
            assert FirstFailure(rules, x) == None;
          }
      }
    }
  }

  /** Rules appended after a synchronous failure change nothing: a chain
      method called on a validator never rescues a value it already rejects. */
  lemma {:induction false} FailureIsFinal(rs1: seq<Rule>, rs2: seq<Rule>, x: Value)
    requires !Phase1(rs1, x).valid
    ensures Phase1(rs1 + rs2, x) == Phase1(rs1, x)
  {
    if rs2 == [] {
      assert rs1 + rs2 == rs1;
    } else {
      var n := |rs2|;
      FailureIsFinal(rs1, rs2[..n - 1], x);
      assert (rs1 + rs2)[..|rs1 + rs2| - 1] == rs1 + rs2[..n - 1];
    }
  }

  /** A rule appended by a chain method runs after all the earlier ones and
      leaves what they did untouched. */
  lemma AppendedRuleRunsLast(rules: seq<Rule>, r: Rule, x: Value)
    ensures Phase1(rules + [r], x) == Step(Phase1(rules, x), r, x)
  {
    assert (rules + [r])[..|rules|] == rules;
  }

  /** Every property launch names a property `x` owns and carries its value,
      and every `each` launch carries the elements of `x`. */
  lemma {:induction false} LaunchesMatchValue(rules: seq<Rule>, x: Value)
    ensures forall l :: l in Phase1(rules, x).launches && l.LaunchProp? ==> OwnProperty(x, l.name) == Some(l.sub)
    ensures forall l :: l in Phase1(rules, x).launches && l.LaunchEach? ==> l.subs == Elements(x)
  {
    if rules != [] {
      LaunchesMatchValue(rules[..|rules| - 1], x);
    }
  }

  /** The names of the property rules in `rules`. */
  function PropNames(rules: seq<Rule>): set<string>
  {
    set i | 0 <= i < |rules| && rules[i].PropRule? :: rules[i].name
  }

  /** The walk over a prefix of the rules is a prefix of the whole walk's
      launches, and the property launches beyond it come from later rules. */
  lemma {:induction false} LaterLaunches(rules: seq<Rule>, k: nat, x: Value)
    requires k <= |rules|
    ensures var p := Phase1(rules[..k], x).launches;
            var q := Phase1(rules, x).launches;
            && |p| <= |q| && q[..|p|] == p
            && forall j :: |p| <= j < |q| && q[j].LaunchProp? ==> q[j].name in PropNames(rules[k..])
  {
    if k < |rules| {
      var n := |rules|;
      var rs := rules[..n - 1];
      LaterLaunches(rs, k, x);
      assert rs[..k] == rules[..k];
      assert PropNames(rs[k..]) <= PropNames(rules[k..]) by {
        forall name | name in PropNames(rs[k..]) ensures name in PropNames(rules[k..]) {
          var i :| 0 <= i < |rs[k..]| && rs[k..][i].PropRule? && rs[k..][i].name == name;
          assert rules[k..][i] == rs[k..][i];
        }
      }
      var d := Invoke(rules[n - 1], x);
      if Phase1(rs, x).valid && d.Launched? && d.launch.LaunchProp? {
        assert rules[k..][n - 1 - k] == rules[n - 1];
      }
    } else {
      assert rules[..k] == rules;
    }
  }

  /** When no rule after the first `k` is an `each` rule, every launch
      beyond those of the first `k` rules is a property launch. */
  lemma {:induction false} LaterLaunchesAreProps(rules: seq<Rule>, k: nat, x: Value)
    requires k <= |rules|
    requires forall m :: k <= m < |rules| ==> !rules[m].EachRule?
    ensures var p := Phase1(rules[..k], x).launches;
            var q := Phase1(rules, x).launches;
            |p| <= |q| && forall j :: |p| <= j < |q| ==> q[j].LaunchProp?
  {
    if k < |rules| {
      var rs := rules[..|rules| - 1];
      assert rs[..k] == rules[..k];
      LaterLaunchesAreProps(rs, k, x);
    } else {
      assert rules[..k] == rules;
    }
  }

  // ----- phase 2: completion of the launched child runs -----
  // The facts about `Fold` take the finished child runs as given, so they
  // are proved once, without the runs behind them.

  /** Entry `j` of the finished runs is the run behind launch `j`. */
  lemma {:induction false} ResolvedAt(G: Schema, ls: seq<Launch>, n: nat, x: Value)
    requires Closed(G) && n <= |ls|
    requires forall l :: l in ls ==> LaunchBelow(l, x) && l.child in G
    ensures forall j :: 0 <= j < n ==> ls[j] in ls && Resolved(G, ls, n, x)[j] == Resolve(G, ls[j], x)
  {
    if n > 0 {
      ResolvedAt(G, ls, n - 1, x);
    }
  }

  /** Whether a finished child run leaves the parent valid. */
  predicate DoneValid(d: Done)
  {
    match d
    case PropDone(_, r) => r.valid
    case EachDone(rs) => AllValid(rs)
  }

  /** The parent ends valid exactly when it started valid and every child
      run it waited for came back valid. */
  lemma {:induction false} FoldValid(a: Acc, ds: seq<Done>)
    ensures Fold(a, ds).valid <==> a.valid && forall j :: 0 <= j < |ds| ==> DoneValid(ds[j])
  {
    if ds != [] {
      var p := ds[..|ds| - 1];
      FoldValid(a, p);
      assert forall j :: 0 <= j < |p| ==> p[j] == ds[j];
    }
  }

  /** The names recorded in `why` are those already there and those of the
      property runs completed. */
  lemma {:induction false} FoldWhyKeys(a: Acc, ds: seq<Done>)
    ensures forall name :: name in Fold(a, ds).why <==>
              name in a.why || exists j :: 0 <= j < |ds| && ds[j].PropDone? && ds[j].name == name
  {
    if ds != [] {
      var p := ds[..|ds| - 1];
      FoldWhyKeys(a, p);
      assert forall j :: 0 <= j < |p| ==> p[j] == ds[j];
    }
  }

  /** The `why` entry of a property run that no later one overwrites is that
      run's result. */
  lemma {:induction false} FoldWhyEntry(a: Acc, ds: seq<Done>, j: nat)
    requires j < |ds| && ds[j].PropDone?
    requires forall k :: j < k < |ds| && ds[k].PropDone? ==> ds[k].name != ds[j].name
    ensures ds[j].name in Fold(a, ds).why && Fold(a, ds).why[ds[j].name] == ds[j].result
  {
    var p := ds[..|ds| - 1];
    if j < |ds| - 1 {
      FoldWhyEntry(a, p, j);
    }
  }

  /** The `whys` prefix an `each` run writes is that run's results, when no
      later `each` run writes over it. */
  lemma {:induction false} FoldWhysEntry(a: Acc, ds: seq<Done>, j: nat)
    requires j < |ds| && ds[j].EachDone?
    requires forall k :: j < k < |ds| ==> !ds[k].EachDone?
    ensures |ds[j].results| <= |Fold(a, ds).whys|
    ensures Fold(a, ds).whys[..|ds[j].results|] == ds[j].results
  {
    if j < |ds| - 1 {
      var p := ds[..|ds| - 1];
      assert p[j] == ds[j];
      FoldWhysEntry(a, p, j);
    }
  }

  /** `whys` never grows longer than the longest results an `each` run delivers. */
  lemma {:induction false} FoldWhysLength(a: Acc, ds: seq<Done>, n: nat)
    requires |a.whys| <= n
    requires forall k :: 0 <= k < |ds| && ds[k].EachDone? ==> |ds[k].results| <= n
    ensures |Fold(a, ds).whys| <= n
  {
    if ds != [] {
      var p := ds[..|ds| - 1];
      assert forall k :: 0 <= k < |p| ==> p[k] == ds[k];
      FoldWhysLength(a, p, n);
    }
  }

  /** When the results of `each` run `j` are at least as long as `whys`
      before completion and as the results of every other `each` run, and
      no later `each` run writes over them, `whys` ends as exactly those
      results. */
  lemma FoldWhysExact(a: Acc, ds: seq<Done>, j: nat)
    requires j < |ds| && ds[j].EachDone?
    requires forall k :: j < k < |ds| ==> !ds[k].EachDone?
    requires |a.whys| <= |ds[j].results|
    requires forall k :: 0 <= k < |ds| && ds[k].EachDone? ==> |ds[k].results| <= |ds[j].results|
    ensures Fold(a, ds).whys == ds[j].results
  {
    FoldWhysEntry(a, ds, j);
    FoldWhysLength(a, ds, |ds[j].results|);
  }

  /** Every entry of the accumulator's `why` and `whys` satisfies `P`. */
  predicate EntriesSatisfy(a: Acc, P: Result -> bool)
  {
    && (forall name :: name in a.why ==> P(a.why[name]))
    && (forall i :: 0 <= i < |a.whys| ==> P(a.whys[i]))
  }

  /** Every result a finished child run delivers satisfies `P`. */
  predicate DoneSatisfies(d: Done, P: Result -> bool)
  {
    match d
    case PropDone(_, r) => P(r)
    case EachDone(rs) => forall i :: 0 <= i < |rs| ==> P(rs[i])
  }

  /** Completion records nothing but the results the child runs deliver. */
  lemma {:induction false} FoldPreserves(a: Acc, ds: seq<Done>, P: Result -> bool)
    requires EntriesSatisfy(a, P)
    requires forall j :: 0 <= j < |ds| ==> DoneSatisfies(ds[j], P)
    ensures EntriesSatisfy(Fold(a, ds), P)
  {
    if ds != [] {
      var p := ds[..|ds| - 1];
      assert forall j :: 0 <= j < |p| ==> p[j] == ds[j];
      FoldPreserves(a, p, P);
      var b := Fold(a, p);
      var d := ds[|ds| - 1];
      assert DoneSatisfies(d, P);
      if d.EachDone? {
        var w := Overwrite(b.whys, d.results);
        forall i | 0 <= i < |w| ensures P(w[i]) {
          if i >= |d.results| {
            assert w[i] == b.whys[i];
          }
        }
      }
    }
  }

  /** Applying completions one batch after another is applying them all. */
  lemma {:induction false} FoldAppend(a: Acc, ds1: seq<Done>, ds2: seq<Done>)
    ensures Fold(a, ds1 + ds2) == Fold(Fold(a, ds1), ds2)
  {
    if ds2 == [] {
      assert ds1 + ds2 == ds1;
    } else {
      FoldAppend(a, ds1, ds2[..|ds2| - 1]);
      assert (ds1 + ds2)[..|ds1 + ds2| - 1] == ds1 + ds2[..|ds2| - 1];
    }
  }

  /** Completions that write different slots commute: two property runs for
      different names, or a property run and an `each` run. */
  predicate Independent(d1: Done, d2: Done)
  {
    !(d1.EachDone? && d2.EachDone?) && (d1.PropDone? && d2.PropDone? ==> d1.name != d2.name)
  }

  lemma CompletionsCommute(a: Acc, d1: Done, d2: Done)
    requires Independent(d1, d2)
    ensures Complete(Complete(a, d1), d2) == Complete(Complete(a, d2), d1)
  {
    if d1.PropDone? && d2.PropDone? {
      assert a.why[d1.name := d1.result][d2.name := d2.result] == a.why[d2.name := d2.result][d1.name := d1.result];
    }
  }

  /** Two independent child runs that finish in the other order leave the
      same accumulator: for distinct property names the promise timing does
      not show in the result. */
  lemma SwapIndependent(a: Acc, ds1: seq<Done>, d1: Done, d2: Done, ds2: seq<Done>)
    requires Independent(d1, d2)
    ensures Fold(a, ds1 + [d1, d2] + ds2) == Fold(a, ds1 + [d2, d1] + ds2)
  {
    FoldAppend(a, ds1 + [d1, d2], ds2);
    FoldAppend(a, ds1 + [d2, d1], ds2);
    FoldSnoc(a, ds1, d1);
    FoldSnoc(a, ds1 + [d1], d2);
    FoldSnoc(a, ds1, d2);
    FoldSnoc(a, ds1 + [d2], d1);
    assert ds1 + [d1, d2] == ds1 + [d1] + [d2] && ds1 + [d2, d1] == ds1 + [d2] + [d1];
    CompletionsCommute(Fold(a, ds1), d1, d2);
  }

  /** Element `i` of the results of an `each` launch is the child's result on
      element `i`. */
  lemma {:induction false} RunAllAt(G: Schema, c: Validator, ys: seq<Value>, n: nat, x: Value)
    requires Closed(G) && c in G && n <= |ys|
    requires forall y :: y in ys ==> Below(y, x)
    ensures forall i :: 0 <= i < n ==> RunAll(G, c, ys, n, x)[i] == Outcome(G, c, ys[i], false)
  {
    if n > 0 {
      RunAllAt(G, c, ys, n - 1, x);
      assert RunAll(G, c, ys, n, x) == RunAll(G, c, ys, n - 1, x) + [Outcome(G, c, ys[n - 1], false)];
    }
  }
}
