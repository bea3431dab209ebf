/**
 * The hierarchical test runner: dependency graph, Kahn topological sort with
 * cycle detection, dependency closure, and the skip/complete bookkeeping of a
 * run in dependency order.
 */
module HierarchicalRunner {
  import opened Wrappers
  import opened Text
  import opened Collections

  /** A discovered test: its name, the names it depends on, and its implicit requirements. */
  datatype TestSpec = TestSpec(name: string, dependsOn: seq<string>, requiresLogin: bool, requiresIde: bool)

  /** No two tests share a name, as for the tests `run_tests_by_names` hands to `run_tests`. */
  predicate UniqueNames(tests: seq<TestSpec>)
  {
    forall i, j :: 0 <= i < j < |tests| ==> tests[i].name != tests[j].name
  }

  function NameSet(tests: seq<TestSpec>): set<string>
  {
    set i | 0 <= i < |tests| :: tests[i].name
  }

  /** How often `x` occurs in `s`. */
  function Occ(x: string, s: seq<string>): nat
    decreases |s|
  {
    if |s| == 0 then 0 else Occ(x, s[..|s| - 1]) + (if s[|s| - 1] == x then 1 else 0)
  }

  /** How many entries of `deps` are not yet in `done`: a test's remaining in-degree. */
  function Unmet(deps: seq<string>, done: set<string>): nat
    decreases |deps|
  {
    if |deps| == 0 then 0 else Unmet(deps[..|deps| - 1], done) + (if deps[|deps| - 1] in done then 0 else 1)
  }

  function Repeat(x: string, k: nat): (r: seq<string>)
    ensures |r| == k
    decreases k
  {
    if k == 0 then [] else Repeat(x, k - 1) + [x]
  }

  /**
   * The names of the tests that list `d` among their dependencies, in input
   * order, once per listing: the list `build_dependency_graph` keeps for `d`.
   */
  function Dependents(tests: seq<TestSpec>, d: string): seq<string>
    decreases |tests|
  {
    if |tests| == 0 then []
    else
      var last := tests[|tests| - 1];
      Dependents(tests[..|tests| - 1], d) + Repeat(last.name, Occ(d, last.dependsOn))
  }

  /** `graph.get(d, [])` */
  function Lookup(graph: map<string, seq<string>>, d: string): seq<string>
  {
    if d in graph then graph[d] else []
  }

  /** Every test appears after each of its dependencies. */
  predicate DepsPrecede(order: seq<TestSpec>)
  {
    forall p, j :: 0 <= p < |order| && 0 <= j < |order[p].dependsOn| ==> order[p].dependsOn[j] in NameSet(order[..p])
  }

  /** `order` runs every test of `tests` exactly once, each after its dependencies. */
  predicate IsDependencyOrder(order: seq<TestSpec>, tests: seq<TestSpec>)
  {
    multiset(order) == multiset(tests) && DepsPrecede(order)
  }

  ghost predicate HasDependencyOrder(tests: seq<TestSpec>)
  {
    exists order :: IsDependencyOrder(order, tests)
  }

  /**
   * Every test named in `blocked` waits on a dependency that is itself
   * blocked or is not the name of any test: no order can start with any of them.
   */
  predicate Blocked(tests: seq<TestSpec>, blocked: set<string>)
  {
    forall i :: 0 <= i < |tests| && tests[i].name in blocked ==> WaitsOnBlocked(tests[i], blocked, NameSet(tests))
  }

  /** Some dependency of `t` is blocked or is not among `names`. */
  predicate WaitsOnBlocked(t: TestSpec, blocked: set<string>, names: set<string>)
  {
    exists j :: 0 <= j < |t.dependsOn| && (t.dependsOn[j] in blocked || t.dependsOn[j] !in names)
  }

  /** The tests without dependencies, in input order: the queue Kahn's algorithm starts from. */
  function ZeroDependencyTests(tests: seq<TestSpec>): (r: seq<TestSpec>)
    ensures forall t :: t in r <==> t in tests && |t.dependsOn| == 0
    ensures UniqueNames(tests) ==> UniqueNames(r)
    decreases |tests|
  {
    if |tests| == 0 then []
    else
      var p := tests[..|tests| - 1];
      var last := tests[|tests| - 1];
      assert tests == p + [last];
      var z := ZeroDependencyTests(p);
      assert UniqueNames(tests) ==> UniqueNames(p) && last.name !in NameSet(z);
      if |last.dependsOn| == 0 then z + [last] else z
  }

  /** No test after position `i` has the name of `tests[i]`. */
  predicate LastOfName(tests: seq<TestSpec>, i: nat)
    requires i < |tests|
  {
    forall j :: i < j < |tests| ==> tests[j].name != tests[i].name
  }

  /** `{test.name: test for test in tests}`: a later test of a name replaces an earlier one. */
  function NameIndex(tests: seq<TestSpec>): (m: map<string, TestSpec>)
    ensures forall i :: 0 <= i < |tests| ==> tests[i].name in m
    ensures forall n :: n in m ==> m[n] in tests && m[n].name == n
    ensures forall i :: 0 <= i < |tests| && LastOfName(tests, i) ==> m[tests[i].name] == tests[i]
    ensures UniqueNames(tests) ==> forall i :: 0 <= i < |tests| ==> m[tests[i].name] == tests[i]
    decreases |tests|
  {
    if |tests| == 0 then map[]
    else
      var p := tests[..|tests| - 1];
      var last := tests[|tests| - 1];
      assert tests == p + [last];
      assert forall i :: 0 <= i < |p| && LastOfName(tests, i) ==> LastOfName(p, i) && p[i].name != last.name;
      assert UniqueNames(tests) ==> forall i :: 0 <= i < |p| ==> LastOfName(tests, i);
      NameIndex(p)[last.name := last]
  }

  // ---------------------------------------------------------------- counting lemmas

  lemma {:induction false} OccPositive(x: string, s: seq<string>)
    ensures Occ(x, s) > 0 <==> x in s
    decreases |s|
  {
    if |s| > 0 {
      OccPositive(x, s[..|s| - 1]);
      assert s == s[..|s| - 1] + [s[|s| - 1]];
    }
  }

  lemma {:induction false} OccPrefix(x: string, s: seq<string>, k: nat)
    requires k < |s|
    ensures Occ(x, s[..k + 1]) == Occ(x, s[..k]) + (if s[k] == x then 1 else 0)
    ensures Occ(x, s[..k + 1]) <= Occ(x, s)
    decreases |s| - k
  {
    assert s[..k + 1][..k] == s[..k];
    if k + 1 < |s| {
      OccPrefix(x, s, k + 1);
    } else {
      assert s[..k + 1] == s;
    }
  }

  lemma {:induction false} UnmetEmpty(deps: seq<string>)
    ensures Unmet(deps, {}) == |deps|
    decreases |deps|
  {
    if |deps| > 0 { UnmetEmpty(deps[..|deps| - 1]); }
  }

  /** Marking `x` done lowers the remaining count by the number of times `x` is listed. */
  lemma {:induction false} UnmetAdd(deps: seq<string>, done: set<string>, x: string)
    requires x !in done
    ensures Unmet(deps, done) == Unmet(deps, done + {x}) + Occ(x, deps)
    decreases |deps|
  {
    if |deps| > 0 { UnmetAdd(deps[..|deps| - 1], done, x); }
  }

  lemma {:induction false} UnmetZero(deps: seq<string>, done: set<string>)
    ensures Unmet(deps, done) == 0 <==> forall j :: 0 <= j < |deps| ==> deps[j] in done
    decreases |deps|
  {
    if |deps| > 0 {
      var p := deps[..|deps| - 1];
      UnmetZero(p, done);
      assert forall j :: 0 <= j < |p| ==> p[j] == deps[j];
    }
  }

  lemma {:induction false} RepeatOcc(x: string, y: string, k: nat)
    ensures Occ(y, Repeat(x, k)) == if x == y then k else 0
    decreases k
  {
    if k > 0 {
      RepeatOcc(x, y, k - 1);
      assert Repeat(x, k)[..k - 1] == Repeat(x, k - 1);
    }
  }

  lemma {:induction false} OccAppend(x: string, a: seq<string>, b: seq<string>)
    ensures Occ(x, a + b) == Occ(x, a) + Occ(x, b)
    decreases |b|
  {
    if |b| > 0 {
      OccAppend(x, a, b[..|b| - 1]);
      assert (a + b)[..|a + b| - 1] == a + b[..|b| - 1];
    } else {
      assert a + b == a;
    }
  }

  lemma {:induction false} RepeatElems(x: string, k: nat)
    ensures forall y :: y in Repeat(x, k) ==> y == x
    decreases k
  {
    if k > 0 { RepeatElems(x, k - 1); }
  }

  /** Each test's name occurs in the list for `d` exactly as often as the test lists `d`. */
  lemma {:induction false} DependentsOcc(tests: seq<TestSpec>, d: string, i: nat)
    requires UniqueNames(tests) && i < |tests|
    ensures Occ(tests[i].name, Dependents(tests, d)) == Occ(d, tests[i].dependsOn)
    decreases |tests|
  {
    var p := tests[..|tests| - 1];
    var last := tests[|tests| - 1];
    OccAppend(tests[i].name, Dependents(p, d), Repeat(last.name, Occ(d, last.dependsOn)));
    RepeatOcc(last.name, tests[i].name, Occ(d, last.dependsOn));
    if i < |tests| - 1 {
      DependentsOcc(p, d, i);
    } else if |p| > 0 {
      DependentsAbsent(p, d, last.name);
    }
  }

  lemma {:induction false} DependentsAbsent(tests: seq<TestSpec>, d: string, x: string)
    requires x !in NameSet(tests)
    ensures Occ(x, Dependents(tests, d)) == 0
    decreases |tests|
  {
    if |tests| > 0 {
      var p := tests[..|tests| - 1];
      var last := tests[|tests| - 1];
      DependentsAbsent(p, d, x);
      OccAppend(x, Dependents(p, d), Repeat(last.name, Occ(d, last.dependsOn)));
      RepeatOcc(last.name, x, Occ(d, last.dependsOn));
    }
  }

  /** Only names of tests are listed as dependents. */
  lemma {:induction false} DependentsAreTests(tests: seq<TestSpec>, d: string)
    ensures forall n :: n in Dependents(tests, d) ==> n in NameSet(tests)
    decreases |tests|
  {
    if |tests| > 0 {
      var p := tests[..|tests| - 1];
      var last := tests[|tests| - 1];
      DependentsAreTests(p, d);
      RepeatElems(last.name, Occ(d, last.dependsOn));
      assert NameSet(tests) == NameSet(p) + {last.name};
    }
  }

  /** The graph has an entry for `d` exactly when some test lists `d`. */
  lemma {:induction false} DependentsNonEmpty(tests: seq<TestSpec>, d: string)
    ensures Dependents(tests, d) != [] <==> exists i :: 0 <= i < |tests| && d in tests[i].dependsOn
    decreases |tests|
  {
    if |tests| > 0 {
      var p := tests[..|tests| - 1];
      var last := tests[|tests| - 1];
      DependentsNonEmpty(p, d);
      OccPositive(d, last.dependsOn);
      var k := Occ(d, last.dependsOn);
      assert k > 0 ==> Repeat(last.name, k) != [];
      assert k == 0 ==> Repeat(last.name, k) == [];
      assert forall i :: 0 <= i < |p| ==> tests[i] == p[i];
    }
  }

  /** Names of a prefix are names of the whole. */
  lemma {:induction false} NameSetPrefix(s: seq<TestSpec>, k: nat)
    requires k <= |s|
    ensures NameSet(s[..k]) <= NameSet(s)
  {
    forall n | n in NameSet(s[..k]) ensures n in NameSet(s) {
      var i :| 0 <= i < k && s[..k][i].name == n;
      assert s[i].name == n;
    }
  }

  lemma {:induction false} NameSetAppend(s: seq<TestSpec>, t: TestSpec)
    ensures NameSet(s + [t]) == NameSet(s) + {t.name}
  {
    var e := s + [t];
    forall n ensures n in NameSet(e) <==> n in NameSet(s) + {t.name} {
      if n in NameSet(e) {
        var i :| 0 <= i < |e| && e[i].name == n;
        if i < |s| { assert s[i].name == n; }
      }
      if n in NameSet(s) {
        var i :| 0 <= i < |s| && s[i].name == n;
        assert e[i].name == n;
      }
      assert e[|s|].name == t.name;
    }
  }

  lemma {:induction false} UniqueNamesCard(s: seq<TestSpec>)
    requires UniqueNames(s)
    ensures |NameSet(s)| == |s|
    decreases |s|
  {
    if |s| > 0 {
      var p := s[..|s| - 1];
      var last := s[|s| - 1];
      UniqueNamesCard(p);
      assert s == p + [last];
      NameSetAppend(p, last);
      forall i | 0 <= i < |p| ensures p[i].name != last.name {
        assert s[i] == p[i];
      }
    }
  }

  lemma {:induction false} SubsetCard<T>(a: set<T>, b: set<T>)
    requires a <= b
    ensures |a| <= |b|
  {
    assert b == a + (b - a);
  }

  /** With unique names, a sequence holds each element once. */
  lemma {:induction false} UniqueMultiplicity(s: seq<TestSpec>, x: TestSpec)
    requires UniqueNames(s)
    ensures multiset(s)[x] == if x in s then 1 else 0
    decreases |s|
  {
    if |s| > 0 {
      var p := s[..|s| - 1];
      assert s == p + [s[|s| - 1]];
      UniqueMultiplicity(p, x);
    }
  }

  /** A repetition-free selection from `tests` that is as long as `tests` is a permutation of it. */
  lemma {:induction false} PermutationByCount(e: seq<TestSpec>, tests: seq<TestSpec>)
    requires UniqueNames(e) && UniqueNames(tests)
    requires forall p :: 0 <= p < |e| ==> e[p] in tests
    requires |e| == |tests|
    ensures multiset(e) == multiset(tests)
  {
    var se := set x | x in e;
    var st := set x | x in tests;
    assert se <= st;
    SetOfUnique(e);
    SetOfUnique(tests);
    if se != st {
      var y :| y in st && y !in se;
      SubsetCard(se, st - {y});
    }
    assert se == st;
    forall x ensures multiset(e)[x] == multiset(tests)[x] {
      UniqueMultiplicity(e, x);
      UniqueMultiplicity(tests, x);
      assert (x in e) == (x in se) && (x in tests) == (x in st);
    }
  }

  lemma {:induction false} SetOfUnique(s: seq<TestSpec>)
    requires UniqueNames(s)
    ensures |set x | x in s| == |s|
    decreases |s|
  {
    if |s| > 0 {
      var p := s[..|s| - 1];
      SetOfUnique(p);
      assert (set x | x in s) == (set x | x in p) + {s[|s| - 1]};
    }
  }

  // ---------------------------------------------------------------- build_dependency_graph

  /** Appending `name` to the list for `dep` adds one listing of `dep` by that test. */
  lemma {:induction false} GraphStep(graph: map<string, seq<string>>, prior: seq<TestSpec>, test: TestSpec, j: nat)
    requires j < |test.dependsOn|
    requires forall d :: Lookup(graph, d) == Dependents(prior, d) + Repeat(test.name, Occ(d, test.dependsOn[..j]))
    ensures var g := graph[test.dependsOn[j] := Lookup(graph, test.dependsOn[j]) + [test.name]];
      forall d :: Lookup(g, d) == Dependents(prior, d) + Repeat(test.name, Occ(d, test.dependsOn[..j + 1]))
  {
    var g := graph[test.dependsOn[j] := Lookup(graph, test.dependsOn[j]) + [test.name]];
    forall d ensures Lookup(g, d) == Dependents(prior, d) + Repeat(test.name, Occ(d, test.dependsOn[..j + 1])) {
      GraphStepAt(graph, prior, test, j, d);
    }
  }

  lemma {:induction false} GraphStepAt(graph: map<string, seq<string>>, prior: seq<TestSpec>, test: TestSpec, j: nat, d: string)
    requires j < |test.dependsOn|
    requires Lookup(graph, d) == Dependents(prior, d) + Repeat(test.name, Occ(d, test.dependsOn[..j]))
    ensures var g := graph[test.dependsOn[j] := Lookup(graph, test.dependsOn[j]) + [test.name]];
      Lookup(g, d) == Dependents(prior, d) + Repeat(test.name, Occ(d, test.dependsOn[..j + 1]))
  {
    var dep := test.dependsOn[j];
    var g := graph[dep := Lookup(graph, dep) + [test.name]];
    OccPrefix(d, test.dependsOn, j);
    var k := Occ(d, test.dependsOn[..j]);
    if d == dep {
      assert Repeat(test.name, k + 1) == Repeat(test.name, k) + [test.name];
      assert Lookup(g, d) == Lookup(graph, d) + [test.name];
      assert Lookup(g, d) == Dependents(prior, d) + (Repeat(test.name, k) + [test.name]);
    } else {
      assert Lookup(g, d) == Lookup(graph, d);
    }
  }

  /** Finishing a test's dependency list extends every list by that test's listings. */
  lemma {:induction false} GraphRow(tests: seq<TestSpec>, i: nat, d: string)
    requires i < |tests|
    ensures Dependents(tests[..i + 1], d) == Dependents(tests[..i], d) + Repeat(tests[i].name, Occ(d, tests[i].dependsOn))
  {
    assert tests[..i + 1][..i] == tests[..i];
  }

  /** `build_dependency_graph`: for each listed dependency, the dependents in input order. */
  method BuildDependencyGraph(tests: seq<TestSpec>) returns (graph: map<string, seq<string>>)
    ensures forall d :: Lookup(graph, d) == Dependents(tests, d)
    ensures forall d :: d in graph <==> exists i :: 0 <= i < |tests| && d in tests[i].dependsOn
  {
    graph := map[];
    for i := 0 to |tests|
      invariant forall d :: Lookup(graph, d) == Dependents(tests[..i], d)
      invariant forall d :: d in graph ==> graph[d] != []
    {
      var test := tests[i];
      assert test.dependsOn[..0] == [];
      for j := 0 to |test.dependsOn|
        invariant forall d :: Lookup(graph, d) == Dependents(tests[..i], d) + Repeat(test.name, Occ(d, test.dependsOn[..j]))
        invariant forall d :: d in graph ==> graph[d] != []
      {
        GraphStep(graph, tests[..i], test, j);
        var dependency := test.dependsOn[j];
        graph := graph[dependency := Lookup(graph, dependency) + [test.name]];
      }
      assert test.dependsOn[..|test.dependsOn|] == test.dependsOn;
      forall d ensures Lookup(graph, d) == Dependents(tests[..i + 1], d) {
        GraphRow(tests, i, d);
      }
    }
    assert tests[..|tests|] == tests;
    forall d ensures d in graph <==> exists i :: 0 <= i < |tests| && d in tests[i].dependsOn {
      DependentsNonEmpty(tests, d);
    }
  }

  // ---------------------------------------------------------------- topological_sort

  /** Slicing `enq` at `head` gives Kahn's output list (before) and its FIFO queue (after). */
  predicate KahnState(tests: seq<TestSpec>, enq: seq<TestSpec>, inDegree: map<string, int>)
  {
    (forall p :: 0 <= p < |enq| ==> enq[p] in tests) &&
    UniqueNames(enq) &&
    ZeroDependencyTests(tests) <= enq &&
    DepsPrecede(enq) &&
    (forall t :: t in tests ==> t.name in inDegree) &&
    (forall t :: t in tests ==> (t in enq <==> inDegree[t.name] == 0))
  }

  /** Between two pops: a test's in-degree counts its dependencies not yet output. */
  predicate Settled(tests: seq<TestSpec>, inDegree: map<string, int>, done: set<string>)
  {
    forall t :: t in tests ==> t.name in inDegree && inDegree[t.name] == Unmet(t.dependsOn, done)
  }

  /**
   * While releasing the dependents of `current`: `current` is already output,
   * but only its first `k` listings have been subtracted.
   */
  predicate Releasing(tests: seq<TestSpec>, inDegree: map<string, int>, done: set<string>,
                      current: string, dependents: seq<string>, k: nat)
    requires k <= |dependents|
  {
    forall t :: t in tests ==>
      (t.name in inDegree && inDegree[t.name] == Unmet(t.dependsOn, done) + Occ(current, t.dependsOn) - Occ(t.name, dependents[..k]))
  }

  /** A repetition-free selection from `tests` is no longer than `tests`. */
  lemma {:induction false} SelectionBound(enq: seq<TestSpec>, tests: seq<TestSpec>)
    requires UniqueNames(enq) && UniqueNames(tests)
    requires forall p :: 0 <= p < |enq| ==> enq[p] in tests
    ensures |enq| <= |tests|
  {
    UniqueNamesCard(enq);
    UniqueNamesCard(tests);
    forall n | n in NameSet(enq) ensures n in NameSet(tests) {
      var p :| 0 <= p < |enq| && enq[p].name == n;
      var a :| 0 <= a < |tests| && tests[a] == enq[p];
    }
    SubsetCard(NameSet(enq), NameSet(tests));
  }

  /** Appending a test whose dependencies are all already output keeps dependencies first. */
  lemma {:induction false} AppendReady(enq: seq<TestSpec>, head: nat, t: TestSpec)
    requires head <= |enq| && DepsPrecede(enq)
    requires forall j :: 0 <= j < |t.dependsOn| ==> t.dependsOn[j] in NameSet(enq[..head])
    ensures DepsPrecede(enq + [t])
  {
    var e := enq + [t];
    NameSetPrefix(enq, head);
    assert e[..|enq|] == enq;
    forall p, j | 0 <= p < |e| && 0 <= j < |e[p].dependsOn| ensures e[p].dependsOn[j] in NameSet(e[..p]) {
      if p < |enq| {
        assert e[..p] == enq[..p];
      }
    }
  }

  /** The first `i` tests have their in-degree set to their dependency count. */
  predicate Initialised(tests: seq<TestSpec>, inDegree: map<string, int>, i: nat)
    requires i <= |tests|
  {
    forall k :: 0 <= k < i ==> tests[k].name in inDegree && inDegree[tests[k].name] == |tests[k].dependsOn|
  }

  lemma {:induction false} InitStep(tests: seq<TestSpec>, inDegree: map<string, int>, i: nat)
    requires UniqueNames(tests) && i < |tests| && Initialised(tests, inDegree, i)
    ensures Initialised(tests, inDegree[tests[i].name := |tests[i].dependsOn|], i + 1)
  {
  }

  /** The in-degree initialisation: every test starts with its full dependency count. */
  lemma {:induction false} InitialSettled(tests: seq<TestSpec>, inDegree: map<string, int>)
    requires Initialised(tests, inDegree, |tests|)
    ensures Settled(tests, inDegree, {})
  {
    forall t | t in tests ensures t.name in inDegree && inDegree[t.name] == Unmet(t.dependsOn, {}) {
      UnmetEmpty(t.dependsOn);
    }
  }

  /** The initial queue is a Kahn state with nothing output yet. */
  lemma {:induction false} InitialState(tests: seq<TestSpec>, inDegree: map<string, int>)
    requires UniqueNames(tests) && Settled(tests, inDegree, {})
    ensures OuterState(tests, ZeroDependencyTests(tests), 0, inDegree)
  {
    var enq := ZeroDependencyTests(tests);
    forall t | t in tests ensures t in enq <==> inDegree[t.name] == 0 {
      UnmetEmpty(t.dependsOn);
    }
    forall p | 0 <= p < |enq| ensures |enq[p].dependsOn| == 0 {
      assert enq[p] in enq;
    }
    SelectionBound(enq, tests);
    assert enq[..0] == [];
    assert NameSet(enq[..0]) == {};
  }

  /** The state of the outer loop of `topological_sort`: `enq[..head]` is output, the rest queued. */
  predicate OuterState(tests: seq<TestSpec>, enq: seq<TestSpec>, head: nat, inDegree: map<string, int>)
  {
    head <= |enq| <= |tests| && KahnState(tests, enq, inDegree) && Settled(tests, inDegree, NameSet(enq[..head]))
  }

  /** Popping `enq[head]` marks it output; its dependents still carry its listings. */
  lemma {:induction false} PopStep(tests: seq<TestSpec>, enq: seq<TestSpec>, head: nat, inDegree: map<string, int>)
    requires head < |enq| && UniqueNames(enq) && Settled(tests, inDegree, NameSet(enq[..head]))
    ensures NameSet(enq[..head + 1]) == NameSet(enq[..head]) + {enq[head].name}
    ensures Releasing(tests, inDegree, NameSet(enq[..head + 1]), enq[head].name, Dependents(tests, enq[head].name), 0)
  {
    var current := enq[head];
    var before := NameSet(enq[..head]);
    assert current.name !in before;
    assert enq[..head + 1] == enq[..head] + [current];
    NameSetAppend(enq[..head], current);
    assert Dependents(tests, current.name)[..0] == [];
    forall t | t in tests
      ensures inDegree[t.name] == Unmet(t.dependsOn, before + {current.name}) + Occ(current.name, t.dependsOn)
    {
      UnmetAdd(t.dependsOn, before, current.name);
    }
  }

  /** The test named by the `k`-th listing still waits on `current`, so it is not yet queued. */
  lemma {:induction false} TargetStep(tests: seq<TestSpec>, enq: seq<TestSpec>, head: nat, inDegree: map<string, int>,
                   current: string, dependents: seq<string>, k: nat, target: TestSpec)
    requires UniqueNames(tests) && target in tests && k < |dependents|
    requires head <= |enq| && KahnState(tests, enq, inDegree)
    requires dependents == Dependents(tests, current) && dependents[k] == target.name
    requires Releasing(tests, inDegree, NameSet(enq[..head]), current, dependents, k)
    ensures inDegree[target.name] >= 1 && target !in enq
    ensures inDegree[target.name] == 1 ==> forall j :: 0 <= j < |target.dependsOn| ==> target.dependsOn[j] in NameSet(enq[..head])
    ensures Occ(target.name, dependents[..k + 1]) == Occ(target.name, dependents[..k]) + 1
  {
    var b :| 0 <= b < |tests| && tests[b] == target;
    DependentsOcc(tests, current, b);
    OccPrefix(target.name, dependents, k);
    UnmetZero(target.dependsOn, NameSet(enq[..head]));
  }

  /** The `k`-th listing names `target` and no other test. */
  lemma {:induction false} OthersStep(tests: seq<TestSpec>, dependents: seq<string>, k: nat, target: TestSpec)
    requires UniqueNames(tests) && target in tests && k < |dependents| && dependents[k] == target.name
    ensures forall t :: t in tests && t != target ==> t.name != target.name && Occ(t.name, dependents[..k + 1]) == Occ(t.name, dependents[..k])
  {
    var b :| 0 <= b < |tests| && tests[b] == target;
    forall t | t in tests && t != target
      ensures t.name != target.name && Occ(t.name, dependents[..k + 1]) == Occ(t.name, dependents[..k])
    {
      var a :| 0 <= a < |tests| && tests[a] == t;
      assert a != b;
      OccPrefix(t.name, dependents, k);
    }
  }

  /** Subtracting the `k`-th listing advances the release invariant by one. */
  lemma {:induction false} ReleasingStep(tests: seq<TestSpec>, inDegree: map<string, int>, done: set<string>,
                      current: string, dependents: seq<string>, k: nat, target: TestSpec)
    requires k < |dependents| && target in tests
    requires Releasing(tests, inDegree, done, current, dependents, k)
    requires Occ(target.name, dependents[..k + 1]) == Occ(target.name, dependents[..k]) + 1
    requires forall t :: t in tests && t != target ==> t.name != target.name && Occ(t.name, dependents[..k + 1]) == Occ(t.name, dependents[..k])
    ensures Releasing(tests, inDegree[target.name := inDegree[target.name] - 1], done, current, dependents, k + 1)
  {
  }

  /** A decrement that leaves the test waiting keeps the queue as it is. */
  lemma {:induction false} KahnKeep(tests: seq<TestSpec>, enq: seq<TestSpec>, inDegree: map<string, int>, target: TestSpec)
    requires UniqueNames(tests) && KahnState(tests, enq, inDegree) && target in tests && target !in enq
    requires inDegree[target.name] != 1
    requires forall t :: t in tests && t != target ==> t.name != target.name
    ensures KahnState(tests, enq, inDegree[target.name := inDegree[target.name] - 1])
  {
  }

  /** A decrement to zero queues the test, which keeps every dependency before its dependents. */
  lemma {:induction false} KahnAppend(tests: seq<TestSpec>, enq: seq<TestSpec>, head: nat, inDegree: map<string, int>, target: TestSpec)
    requires UniqueNames(tests) && KahnState(tests, enq, inDegree) && target in tests && target !in enq
    requires head <= |enq| && inDegree[target.name] == 1
    requires forall j :: 0 <= j < |target.dependsOn| ==> target.dependsOn[j] in NameSet(enq[..head])
    requires forall t :: t in tests && t != target ==> t.name != target.name
    ensures KahnState(tests, enq + [target], inDegree[target.name := 0])
    ensures (enq + [target])[..head] == enq[..head] && |enq + [target]| <= |tests|
  {
    var e := enq + [target];
    forall p | 0 <= p < |enq| ensures enq[p].name != target.name {
      assert enq[p] in tests;
    }
    AppendReady(enq, head, target);
    assert e[..head] == enq[..head];
    assert forall p :: 0 <= p < |enq| ==> e[p] == enq[p];
    SelectionBound(e, tests);
  }

  /** The state of the inner loop of `topological_sort` after `k` listings. */
  predicate InnerState(tests: seq<TestSpec>, enq: seq<TestSpec>, head: nat, inDegree: map<string, int>,
                       done: set<string>, current: string, dependents: seq<string>, k: nat)
    requires k <= |dependents|
  {
    head <= |enq| <= |tests| && NameSet(enq[..head]) == done &&
    KahnState(tests, enq, inDegree) && Releasing(tests, inDegree, done, current, dependents, k)
  }

  /** One pass of the inner loop: decrement the listed test, and queue it once it reaches zero. */
  lemma {:induction false} InnerStep(tests: seq<TestSpec>, enq: seq<TestSpec>, head: nat, inDegree: map<string, int>,
                  done: set<string>, current: string, dependents: seq<string>, k: nat, name: string, target: TestSpec)
    requires UniqueNames(tests) && target in tests && k < |dependents|
    requires dependents == Dependents(tests, current) && dependents[k] == name && target.name == name
    requires InnerState(tests, enq, head, inDegree, done, current, dependents, k)
    ensures name in inDegree
    ensures inDegree[name] == 1 ==> InnerState(tests, enq + [target], head, inDegree[name := 0], done, current, dependents, k + 1)
    ensures inDegree[name] != 1 ==> InnerState(tests, enq, head, inDegree[name := inDegree[name] - 1], done, current, dependents, k + 1)
  {
    TargetStep(tests, enq, head, inDegree, current, dependents, k, target);
    OthersStep(tests, dependents, k, target);
    ReleasingStep(tests, inDegree, done, current, dependents, k, target);
    if inDegree[target.name] == 1 {
      KahnAppend(tests, enq, head, inDegree, target);
    } else {
      KahnKeep(tests, enq, inDegree, target);
    }
  }

  /** After the last listing of `current` is subtracted, the in-degrees are settled again. */
  lemma {:induction false} ReleaseDone(tests: seq<TestSpec>, inDegree: map<string, int>, done: set<string>, current: string, dependents: seq<string>)
    requires UniqueNames(tests) && dependents == Dependents(tests, current)
    requires Releasing(tests, inDegree, done, current, dependents, |dependents|)
    ensures Settled(tests, inDegree, done)
  {
    assert dependents[..|dependents|] == dependents;
    forall t | t in tests ensures inDegree[t.name] == Unmet(t.dependsOn, done) {
      var a :| 0 <= a < |tests| && tests[a] == t;
      DependentsOcc(tests, current, a);
    }
  }

  /** Entering the inner loop after popping `enq[head]`. */
  lemma {:induction false} PopToInner(tests: seq<TestSpec>, enq: seq<TestSpec>, head: nat, inDegree: map<string, int>)
    requires head < |enq| && OuterState(tests, enq, head, inDegree)
    ensures InnerState(tests, enq, head + 1, inDegree, NameSet(enq[..head + 1]), enq[head].name, Dependents(tests, enq[head].name), 0)
  {
    PopStep(tests, enq, head, inDegree);
  }

  /** Leaving the inner loop: the outer invariant holds again with one more test output. */
  lemma {:induction false} InnerToOuter(tests: seq<TestSpec>, enq: seq<TestSpec>, head: nat, inDegree: map<string, int>,
                     done: set<string>, current: string, dependents: seq<string>)
    requires UniqueNames(tests) && dependents == Dependents(tests, current)
    requires InnerState(tests, enq, head, inDegree, done, current, dependents, |dependents|)
    ensures OuterState(tests, enq, head, inDegree)
  {
    ReleaseDone(tests, inDegree, done, current, dependents);
  }

  /** A test left out of a drained queue still waits on a test that was never output. */
  lemma {:induction false} StuckTest(tests: seq<TestSpec>, enq: seq<TestSpec>, inDegree: map<string, int>, i: nat)
    requires KahnState(tests, enq, inDegree) && Settled(tests, inDegree, NameSet(enq))
    requires i < |tests| && tests[i].name !in NameSet(enq)
    ensures WaitsOnBlocked(tests[i], NameSet(tests) - NameSet(enq), NameSet(tests))
  {
    var t := tests[i];
    assert t !in enq;
    UnmetZero(t.dependsOn, NameSet(enq));
    var j :| 0 <= j < |t.dependsOn| && t.dependsOn[j] !in NameSet(enq);
    assert t.dependsOn[j] in NameSet(tests) - NameSet(enq) || t.dependsOn[j] !in NameSet(tests);
  }

  /** A repetition-free selection from `tests` shorter than `tests` misses some name. */
  lemma {:induction false} MissingName(tests: seq<TestSpec>, enq: seq<TestSpec>)
    requires UniqueNames(tests) && UniqueNames(enq) && |enq| != |tests|
    requires forall p :: 0 <= p < |enq| ==> enq[p] in tests
    ensures NameSet(tests) - NameSet(enq) != {}
  {
    UniqueNamesCard(enq);
    UniqueNamesCard(tests);
    SelectionBound(enq, tests);
    if NameSet(tests) - NameSet(enq) == {} {
      forall n | n in NameSet(tests) ensures n in NameSet(enq) {
        assert n !in NameSet(tests) - NameSet(enq);
      }
      SubsetCard(NameSet(tests), NameSet(enq));
    }
  }

  /** A drained queue that output fewer tests than given leaves a non-empty blocked set. */
  lemma {:induction false} StuckIsBlocked(tests: seq<TestSpec>, enq: seq<TestSpec>, inDegree: map<string, int>)
    requires UniqueNames(tests) && KahnState(tests, enq, inDegree) && Settled(tests, inDegree, NameSet(enq))
    requires |enq| != |tests|
    ensures var remaining := NameSet(tests) - NameSet(enq);
      remaining != {} && Blocked(tests, remaining) && !HasDependencyOrder(tests)
  {
    var remaining := NameSet(tests) - NameSet(enq);
    MissingName(tests, enq);
    forall i | 0 <= i < |tests| && tests[i].name in remaining
      ensures WaitsOnBlocked(tests[i], remaining, NameSet(tests))
    {
      StuckTest(tests, enq, inDegree, i);
    }
    BlockedMeansNoOrder(tests, remaining);
  }

  /** A drained queue that output every test is a dependency order. */
  lemma {:induction false} CompleteIsOrder(tests: seq<TestSpec>, enq: seq<TestSpec>, inDegree: map<string, int>)
    requires UniqueNames(tests) && KahnState(tests, enq, inDegree) && |enq| == |tests|
    ensures IsDependencyOrder(enq, tests) && HasDependencyOrder(tests)
  {
    PermutationByCount(enq, tests);
    assert IsDependencyOrder(enq, tests);
  }

  /**
   * The inner loop of `topological_sort`: each listed dependent of `current`
   * loses one unmet dependency, and joins the queue when none is left.
   */
  method ReleaseDependents(tests: seq<TestSpec>, testMap: map<string, TestSpec>, dependents: seq<string>,
                           enq0: seq<TestSpec>, head: nat, inDegree0: map<string, int>,
                           ghost done: set<string>, ghost current: string)
    returns (enq: seq<TestSpec>, inDegree: map<string, int>)
    requires UniqueNames(tests) && testMap == NameIndex(tests) && dependents == Dependents(tests, current)
    requires InnerState(tests, enq0, head, inDegree0, done, current, dependents, 0)
    ensures InnerState(tests, enq, head, inDegree, done, current, dependents, |dependents|)
  {
    enq, inDegree := enq0, inDegree0;
    DependentsAreTests(tests, current);
    for k := 0 to |dependents|
      invariant InnerState(tests, enq, head, inDegree, done, current, dependents, k)
    {
      var name := dependents[k];
      assert name in NameSet(tests);
      var target := testMap[name];
      InnerStep(tests, enq, head, inDegree, done, current, dependents, k, name, target);
      inDegree := inDegree[name := inDegree[name] - 1];
      if inDegree[name] == 0 {
        enq := enq + [target];
      }
    }
  }

  /** `topological_sort`: Kahn's algorithm; `Err` carries the names left unsorted. */
  method TopologicalSort(tests: seq<TestSpec>) returns (r: Result<seq<TestSpec>, set<string>>)
    requires UniqueNames(tests)
    ensures r.Ok? ==> IsDependencyOrder(r.value, tests)
    ensures r.Ok? ==> ZeroDependencyTests(tests) <= r.value
    ensures r.Err? ==> r.error != {} && r.error <= NameSet(tests) && Blocked(tests, r.error)
    ensures r.Err? <==> !HasDependencyOrder(tests)
  {
    var graph := BuildDependencyGraph(tests);
    var testMap := NameIndex(tests);
    var inDegree: map<string, int> := map[];
    for i := 0 to |tests|
      invariant Initialised(tests, inDegree, i)
    {
      InitStep(tests, inDegree, i);
      inDegree := inDegree[tests[i].name := |tests[i].dependsOn|];
    }
    InitialSettled(tests, inDegree);
    var enq := ZeroDependencyTests(tests);
    var head := 0;
    InitialState(tests, inDegree);
    while head < |enq|
      invariant OuterState(tests, enq, head, inDegree)
      decreases |tests| - head
    {
      var current := enq[head];
      PopToInner(tests, enq, head, inDegree);
      head := head + 1;
      ghost var done := NameSet(enq[..head]);
      var dependents := Lookup(graph, current.name);
      enq, inDegree := ReleaseDependents(tests, testMap, dependents, enq, head, inDegree, done, current.name);
      InnerToOuter(tests, enq, head, inDegree, done, current.name, dependents);
    }
    assert enq[..head] == enq;
    if |enq| != |tests| {
      var remaining := NameSet(tests) - NameSet(enq);
      StuckIsBlocked(tests, enq, inDegree);
      r := Err(remaining);
    } else {
      CompleteIsOrder(tests, enq, inDegree);
      r := Ok(enq);
    }
  }

  /** In a permutation of `tests`, every entry is a test, and so is every name before position `p`. */
  lemma {:induction false} OrderEntry(order: seq<TestSpec>, tests: seq<TestSpec>, q: nat)
    requires multiset(order) == multiset(tests) && q < |order|
    ensures order[q] in tests && order[q].name in NameSet(tests)
  {
    assert order[q] in multiset(tests);
    var a :| 0 <= a < |tests| && tests[a] == order[q];
  }

  lemma {:induction false} EarlierName(order: seq<TestSpec>, p: nat, d: string) returns (q: nat)
    requires p <= |order| && d in NameSet(order[..p])
    ensures q < p && order[q].name == d
  {
    q :| 0 <= q < p && order[..p][q].name == d;
  }

  /** Every test name has a position in a permutation of the tests. */
  lemma {:induction false} NamePosition(order: seq<TestSpec>, tests: seq<TestSpec>, n: string) returns (p: nat)
    requires multiset(order) == multiset(tests) && n in NameSet(tests)
    ensures p < |order| && order[p].name == n
  {
    var i :| 0 <= i < |tests| && tests[i].name == n;
    assert tests[i] in multiset(order);
    p :| 0 <= p < |order| && order[p] == tests[i];
  }

  /** A non-empty blocked set of test names rules out every dependency order. */
  lemma {:induction false} BlockedMeansNoOrder(tests: seq<TestSpec>, blocked: set<string>)
    requires blocked != {} && blocked <= NameSet(tests) && Blocked(tests, blocked)
    ensures !HasDependencyOrder(tests)
  {
    if HasDependencyOrder(tests) {
      var order: seq<TestSpec> :| IsDependencyOrder(order, tests);
      var n :| n in blocked;
      var p := NamePosition(order, tests, n);
      NoneBlockedBefore(tests, blocked, order, p);
    }
  }

  lemma {:induction false} NoneBlockedBefore(tests: seq<TestSpec>, blocked: set<string>, order: seq<TestSpec>, p: nat)
    requires blocked <= NameSet(tests) && Blocked(tests, blocked) && IsDependencyOrder(order, tests)
    requires p < |order|
    ensures forall q :: 0 <= q <= p ==> order[q].name !in blocked
    decreases p
  {
    if p > 0 { NoneBlockedBefore(tests, blocked, order, p - 1); }
    if order[p].name in blocked {
      OrderEntry(order, tests, p);
      var i :| 0 <= i < |tests| && tests[i] == order[p];
      assert WaitsOnBlocked(tests[i], blocked, NameSet(tests));
      var j :| 0 <= j < |tests[i].dependsOn| && (tests[i].dependsOn[j] in blocked || tests[i].dependsOn[j] !in NameSet(tests));
      var d := tests[i].dependsOn[j];
      assert d in NameSet(order[..p]);
      var q := EarlierName(order, p, d);
      OrderEntry(order, tests, q);
    }
  }

  /** A test that depends on a name no test has can never be scheduled. */
  lemma {:induction false} MissingDependencyMeansNoOrder(tests: seq<TestSpec>, i: nat, j: nat)
    requires i < |tests| && j < |tests[i].dependsOn| && tests[i].dependsOn[j] !in NameSet(tests)
    ensures !HasDependencyOrder(tests)
  {
    if HasDependencyOrder(tests) {
      var order: seq<TestSpec> :| IsDependencyOrder(order, tests);
      assert tests[i] in multiset(order);
      var p :| 0 <= p < |order| && order[p] == tests[i];
      var d := tests[i].dependsOn[j];
      assert d in NameSet(order[..p]);
      var q := EarlierName(order, p, d);
      OrderEntry(order, tests, q);
    }
  }

  // ---------------------------------------------------------------- resolve_dependencies

  /** Every known test in `c` has all its dependencies in `c`. */
  predicate Closed(index: map<string, TestSpec>, c: set<string>)
  {
    forall m, d :: m in c && m in index && d in index[m].dependsOn ==> d in c
  }

  /** `x` is requested, or is a dependency of a known test among the first `n` names of `trail`. */
  predicate Grounded(index: map<string, TestSpec>, requested: seq<TestSpec>, trail: seq<string>, n: nat, x: string)
  {
    x in NameSet(requested) || exists j :: 0 <= j < n && j < |trail| && trail[j] in index && x in index[trail[j]].dependsOn
  }

  /** Each name of `trail` is grounded in the names before it. */
  predicate GroundedTrail(index: map<string, TestSpec>, requested: seq<TestSpec>, trail: seq<string>)
  {
    forall i :: 0 <= i < |trail| ==> Grounded(index, requested, trail, i, trail[i])
  }

  /** The dependencies of a known test in `needed` are in `needed` or still queued. */
  predicate ClosedUpTo(index: map<string, TestSpec>, needed: set<string>, pending: seq<string>)
  {
    forall m, d :: m in needed && m in index && d in index[m].dependsOn ==> d in needed || d in pending
  }

  /** Every name any test lists as a dependency. */
  ghost function DepNames(catalog: seq<TestSpec>): set<string>
  {
    set i, j | 0 <= i < |catalog| && 0 <= j < |catalog[i].dependsOn| :: catalog[i].dependsOn[j]
  }

  /** Every queued name is in the universe and grounded in the whole trail. */
  ghost predicate Queued(index: map<string, TestSpec>, requested: seq<TestSpec>, universe: set<string>,
                         trail: seq<string>, toProcess: seq<string>)
  {
    forall k :: 0 <= k < |toProcess| ==> toProcess[k] in universe && Grounded(index, requested, trail, |trail|, toProcess[k])
  }

  lemma {:induction false} GroundedExtend(index: map<string, TestSpec>, requested: seq<TestSpec>, trail: seq<string>, n: nat, y: string, x: string)
    requires n <= |trail| && Grounded(index, requested, trail, n, x)
    ensures Grounded(index, requested, trail + [y], n, x) && Grounded(index, requested, trail + [y], n + 1, x)
  {
    if x !in NameSet(requested) {
      var j :| 0 <= j < n && j < |trail| && trail[j] in index && x in index[trail[j]].dependsOn;
      assert (trail + [y])[j] == trail[j];
    }
  }

  lemma {:induction false} GroundedTrailExtend(index: map<string, TestSpec>, requested: seq<TestSpec>, trail: seq<string>, x: string)
    requires GroundedTrail(index, requested, trail) && Grounded(index, requested, trail, |trail|, x)
    ensures GroundedTrail(index, requested, trail + [x])
  {
    var t := trail + [x];
    forall i | 0 <= i < |t| ensures Grounded(index, requested, t, i, t[i]) {
      if i < |trail| {
        GroundedExtend(index, requested, trail, i, x, trail[i]);
      } else {
        GroundedExtend(index, requested, trail, |trail|, x, x);
      }
    }
  }

  /** The dependencies of the test `trail` ends with are grounded in `trail`. */
  lemma {:induction false} GroundedDep(index: map<string, TestSpec>, requested: seq<TestSpec>, trail: seq<string>, d: string)
    requires |trail| > 0 && trail[|trail| - 1] in index && d in index[trail[|trail| - 1]].dependsOn
    ensures Grounded(index, requested, trail, |trail|, d)
  {
  }

  /** A closed set holding the requested names holds the first `n` names of a grounded trail. */
  lemma {:induction false} TrailWithin(index: map<string, TestSpec>, requested: seq<TestSpec>, trail: seq<string>,
                                       c: set<string>, n: nat)
    requires GroundedTrail(index, requested, trail) && Closed(index, c) && NameSet(requested) <= c
    requires n <= |trail|
    ensures forall i :: 0 <= i < n ==> trail[i] in c
    decreases n
  {
    if n > 0 {
      TrailWithin(index, requested, trail, c, n - 1);
      var x := trail[n - 1];
      assert Grounded(index, requested, trail, n - 1, x);
      if x !in NameSet(requested) {
        var j :| 0 <= j < n - 1 && j < |trail| && trail[j] in index && x in index[trail[j]].dependsOn;
        assert trail[j] in c;
      }
    }
  }

  /** The worklist state of `resolve_dependencies`. */
  ghost predicate ResolveState(index: map<string, TestSpec>, requested: seq<TestSpec>, universe: set<string>,
                               needed: set<string>, toProcess: seq<string>, trail: seq<string>)
  {
    (forall n :: n in needed <==> n in trail) &&
    needed <= universe && Queued(index, requested, universe, trail, toProcess) &&
    GroundedTrail(index, requested, trail) &&
    ClosedUpTo(index, needed, toProcess) &&
    (forall i :: 0 <= i < |requested| ==> requested[i].name in needed || requested[i].name in toProcess)
  }

  /** The worklist state just after `current` is marked needed, before its dependencies are queued. */
  ghost predicate AddedState(index: map<string, TestSpec>, requested: seq<TestSpec>, universe: set<string>,
                             needed: set<string>, pending: seq<string>, trail: seq<string>, current: string)
  {
    current in needed && |trail| > 0 && trail[|trail| - 1] == current &&
    (forall n :: n in needed <==> n in trail) && needed <= universe &&
    GroundedTrail(index, requested, trail) && Queued(index, requested, universe, trail, pending) &&
    (forall m, d :: m in needed - {current} && m in index && d in index[m].dependsOn ==> d in needed || d in pending) &&
    (forall i :: 0 <= i < |requested| ==> requested[i].name in needed || requested[i].name in pending)
  }

  /** Popping a name that is already needed keeps the worklist state. */
  lemma {:induction false} ResolveSkip(index: map<string, TestSpec>, requested: seq<TestSpec>, universe: set<string>,
                    needed: set<string>, toProcess: seq<string>, trail: seq<string>)
    requires |toProcess| > 0 && toProcess[0] in needed
    requires ResolveState(index, requested, universe, needed, toProcess, trail)
    ensures ResolveState(index, requested, universe, needed, toProcess[1..], trail)
  {
    forall i | 0 <= i < |requested| ensures requested[i].name in needed || requested[i].name in toProcess[1..] {
      if requested[i].name in toProcess && requested[i].name !in needed {
        var k :| 0 <= k < |toProcess| && toProcess[k] == requested[i].name;
        assert toProcess[1..][k - 1] == toProcess[k];
      }
    }
    forall m, d | m in needed && m in index && d in index[m].dependsOn ensures d in needed || d in toProcess[1..] {
      if d !in needed {
        var k :| 0 <= k < |toProcess| && toProcess[k] == d;
        assert toProcess[1..][k - 1] == toProcess[k];
      }
    }
  }

  /** Marking a popped name needed. */
  lemma {:induction false} ResolveAdd(index: map<string, TestSpec>, requested: seq<TestSpec>, universe: set<string>,
                   needed: set<string>, toProcess: seq<string>, trail: seq<string>)
    requires |toProcess| > 0 && toProcess[0] !in needed
    requires ResolveState(index, requested, universe, needed, toProcess, trail)
    ensures AddedState(index, requested, universe, needed + {toProcess[0]}, toProcess[1..], trail + [toProcess[0]], toProcess[0])
  {
    var current := toProcess[0];
    GroundedTrailExtend(index, requested, trail, current);
    forall k | 0 <= k < |toProcess| - 1
      ensures toProcess[1..][k] in universe && Grounded(index, requested, trail + [current], |trail| + 1, toProcess[1..][k])
    {
      assert toProcess[1..][k] == toProcess[k + 1];
      GroundedExtend(index, requested, trail, |trail|, current, toProcess[k + 1]);
    }
    forall i | 0 <= i < |requested| ensures requested[i].name in needed + {current} || requested[i].name in toProcess[1..] {
      if requested[i].name in toProcess && requested[i].name != current && requested[i].name !in needed {
        var k :| 0 <= k < |toProcess| && toProcess[k] == requested[i].name;
        assert toProcess[1..][k - 1] == toProcess[k];
      }
    }
    forall m, d | m in needed && m in index && d in index[m].dependsOn
      ensures d in needed + {current} || d in toProcess[1..]
    {
      if d !in needed && d != current {
        var k :| 0 <= k < |toProcess| && toProcess[k] == d;
        assert toProcess[1..][k - 1] == toProcess[k];
      }
    }
  }

  /** `[d for d in deps if d not in needed]`: what the inner loop of `resolve_dependencies` queues. */
  function Missing(deps: seq<string>, needed: set<string>): seq<string>
    decreases |deps|
  {
    if |deps| == 0 then []
    else Missing(deps[..|deps| - 1], needed) + (if deps[|deps| - 1] in needed then [] else [deps[|deps| - 1]])
  }

  lemma {:induction false} MissingStep(deps: seq<string>, needed: set<string>, j: nat)
    requires j < |deps|
    ensures Missing(deps[..j + 1], needed) == Missing(deps[..j], needed) + (if deps[j] in needed then [] else [deps[j]])
  {
    assert deps[..j + 1][..j] == deps[..j];
  }

  lemma {:induction false} MissingElems(deps: seq<string>, needed: set<string>)
    ensures forall x :: x in Missing(deps, needed) <==> x in deps && x !in needed
    decreases |deps|
  {
    if |deps| > 0 {
      var p := deps[..|deps| - 1];
      MissingElems(p, needed);
      assert deps == p + [deps[|deps| - 1]];
    }
  }

  /** Queuing the dependencies of `current` restores the worklist state. */
  lemma {:induction false} ResolveQueued(catalog: seq<TestSpec>, index: map<string, TestSpec>, requested: seq<TestSpec>, universe: set<string>,
                      needed: set<string>, pending0: seq<string>, toProcess: seq<string>, trail: seq<string>, current: string)
    requires index == NameIndex(catalog) && DepNames(catalog) <= universe
    requires AddedState(index, requested, universe, needed, pending0, trail, current)
    requires current in index ==> toProcess == pending0 + Missing(index[current].dependsOn, needed)
    requires current !in index ==> toProcess == pending0
    ensures ResolveState(index, requested, universe, needed, toProcess, trail)
  {
    var added := toProcess[|pending0|..];
    assert toProcess == pending0 + added;
    if current in index {
      var t := index[current];
      MissingElems(t.dependsOn, needed);
      var i :| 0 <= i < |catalog| && catalog[i] == t;
      forall x | x in added ensures x in universe && Grounded(index, requested, trail, |trail|, x) {
        var j :| 0 <= j < |t.dependsOn| && t.dependsOn[j] == x;
        assert catalog[i].dependsOn[j] == x;
        GroundedDep(index, requested, trail, x);
      }
      forall d | d in t.dependsOn ensures d in needed || d in toProcess {
        assert d !in needed ==> d in added;
      }
    }
    forall k | 0 <= k < |toProcess| ensures toProcess[k] in universe && Grounded(index, requested, trail, |trail|, toProcess[k]) {
      if k >= |pending0| {
        assert toProcess[k] == added[k - |pending0|];
      }
    }
  }

  /** Every name of the catalog is a key of its index. */
  lemma {:induction false} IndexKeys(catalog: seq<TestSpec>)
    ensures forall n :: n in NameSet(catalog) <==> n in NameIndex(catalog)
  {
    var index := NameIndex(catalog);
    forall n | n in NameSet(catalog) ensures n in index {
      var i :| 0 <= i < |catalog| && catalog[i].name == n;
    }
  }

  /** The known requested names survive into the result. */
  lemma {:induction false} ResolveKeepsRequested(catalog: seq<TestSpec>, requested: seq<TestSpec>, needed: set<string>, r: seq<TestSpec>)
    requires forall i :: 0 <= i < |requested| ==> requested[i].name in needed
    requires forall n :: n in NameSet(r) <==> n in needed && n in NameIndex(catalog)
    ensures forall i :: 0 <= i < |requested| && requested[i].name in NameSet(catalog) ==> requested[i].name in NameSet(r)
  {
    IndexKeys(catalog);
  }

  /** A needed set closed over the known tests gives a result closed over known names. */
  lemma {:induction false} ResolveClosedResult(index: map<string, TestSpec>, needed: set<string>, r: seq<TestSpec>)
    requires ClosedUpTo(index, needed, [])
    requires forall p :: 0 <= p < |r| ==> r[p].name in index && index[r[p].name] == r[p]
    requires forall n :: n in NameSet(r) <==> n in needed && n in index
    ensures forall p, d :: 0 <= p < |r| && d in r[p].dependsOn && d in index ==> d in NameSet(r)
  {
    forall p, d | 0 <= p < |r| && d in r[p].dependsOn && d in index ensures d in NameSet(r) {
      var m := r[p].name;
      assert m in NameSet(r);
      assert m in needed && m in index && index[m] == r[p];
    }
  }

  /** Everything needed lies in every closed set holding the requested names. */
  lemma {:induction false} ResolveMinimal(index: map<string, TestSpec>, requested: seq<TestSpec>, needed: set<string>, trail: seq<string>, r: seq<TestSpec>)
    requires GroundedTrail(index, requested, trail) && forall n :: n in needed <==> n in trail
    requires forall n :: n in NameSet(r) ==> n in needed
    ensures forall c :: Closed(index, c) && NameSet(requested) <= c ==> NameSet(r) <= c
  {
    forall c | Closed(index, c) && NameSet(requested) <= c ensures NameSet(r) <= c {
      TrailWithin(index, requested, trail, c, |trail|);
      forall n | n in NameSet(r) ensures n in c {
        var i :| 0 <= i < |trail| && trail[i] == n;
      }
    }
  }

  lemma {:induction false} RemoveShrinks<T>(u: set<T>, n: set<T>, c: T)
    requires c in u && c !in n
    ensures |u - (n + {c})| < |u - n|
  {
    assert u - n == (u - (n + {c})) + {c};
  }

  /** The inner loop of `resolve_dependencies`: queue each dependency not yet needed. */
  method QueueMissing(deps: seq<string>, needed: set<string>, toProcess0: seq<string>) returns (toProcess: seq<string>)
    ensures toProcess == toProcess0 + Missing(deps, needed)
  {
    toProcess := toProcess0;
    for j := 0 to |deps|
      invariant toProcess == toProcess0 + Missing(deps[..j], needed)
    {
      MissingStep(deps, needed, j);
      if deps[j] !in needed {
        toProcess := toProcess + [deps[j]];
      }
    }
    assert deps[..|deps|] == deps;
  }

  /** `[test_map[name] for name in needed_tests if name in test_map]`, in set iteration order. */
  method KnownTests(catalog: seq<TestSpec>, testMap: map<string, TestSpec>, needed: set<string>) returns (r: seq<TestSpec>)
    requires testMap == NameIndex(catalog)
    ensures UniqueNames(r) && forall p :: 0 <= p < |r| ==> r[p] in catalog
    ensures forall p :: 0 <= p < |r| ==> r[p].name in testMap && testMap[r[p].name] == r[p]
    ensures forall n :: n in NameSet(r) <==> n in needed && n in testMap
  {
    r := [];
    var rest := needed;
    assert IndexesCatalog(catalog, testMap);
    while rest != {}
      invariant KnownState(catalog, testMap, needed, rest, r)
      decreases |rest|
    {
      var n :| n in rest;
      KnownStep(catalog, testMap, needed, rest, r, n);
      if n in testMap {
        r := r + [testMap[n]];
      }
      rest := rest - {n};
    }
  }

  /** `r` holds the known tests among the names of `needed` already visited. */
  ghost predicate KnownState(catalog: seq<TestSpec>, testMap: map<string, TestSpec>, needed: set<string>, rest: set<string>, r: seq<TestSpec>)
  {
    rest <= needed && UniqueNames(r) && (forall p :: 0 <= p < |r| ==> r[p] in catalog) &&
    (forall p :: 0 <= p < |r| ==> r[p].name in testMap && testMap[r[p].name] == r[p]) &&
    (forall n :: n in NameSet(r) <==> n in needed - rest && n in testMap)
  }

  /** Every entry of `testMap` is a test of the catalog stored under its own name. */
  predicate IndexesCatalog(catalog: seq<TestSpec>, testMap: map<string, TestSpec>)
  {
    forall n :: n in testMap ==> testMap[n] in catalog && testMap[n].name == n
  }

  lemma {:induction false} KnownStep(catalog: seq<TestSpec>, testMap: map<string, TestSpec>, needed: set<string>, rest: set<string>, r: seq<TestSpec>, n: string)
    requires IndexesCatalog(catalog, testMap)
    requires KnownState(catalog, testMap, needed, rest, r) && n in rest
    ensures KnownState(catalog, testMap, needed, rest - {n}, if n in testMap then r + [testMap[n]] else r)
  {
    if n in testMap {
      KnownAdd(catalog, testMap, needed, rest, r, n);
    }
  }

  lemma {:induction false} KnownAdd(catalog: seq<TestSpec>, testMap: map<string, TestSpec>, needed: set<string>, rest: set<string>, r: seq<TestSpec>, n: string)
    requires IndexesCatalog(catalog, testMap)
    requires KnownState(catalog, testMap, needed, rest, r) && n in rest && n in testMap
    ensures KnownState(catalog, testMap, needed, rest - {n}, r + [testMap[n]])
  {
    var t := testMap[n];
    NameSetAppend(r, t);
    UniqueAppend(r, t);
    var e := r + [t];
    assert forall p :: 0 <= p < |r| ==> e[p] == r[p];
  }

  lemma {:induction false} UniqueAppend(r: seq<TestSpec>, t: TestSpec)
    requires UniqueNames(r) && t.name !in NameSet(r)
    ensures UniqueNames(r + [t])
  {
    var e := r + [t];
    forall i, j | 0 <= i < j < |e| ensures e[i].name != e[j].name {
      if j == |r| {
        assert e[i] == r[i];
        assert r[i].name in NameSet(r);
      } else {
        assert e[i] == r[i] && e[j] == r[j];
      }
    }
  }

  /**
   * `resolve_dependencies`: a worklist closure of the requested names under
   * `depends_on`, then the known tests among them, in an arbitrary order (the
   * order of a Python set).
   */
  method ResolveDependencies(catalog: seq<TestSpec>, requested: seq<TestSpec>) returns (r: seq<TestSpec>)
    ensures UniqueNames(r) && forall p :: 0 <= p < |r| ==> r[p] in catalog
    ensures forall i :: 0 <= i < |requested| && requested[i].name in NameSet(catalog) ==> requested[i].name in NameSet(r)
    ensures forall p, d :: 0 <= p < |r| && d in r[p].dependsOn && d in NameSet(catalog) ==> d in NameSet(r)
    ensures forall c :: Closed(NameIndex(catalog), c) && NameSet(requested) <= c ==> NameSet(r) <= c
  {
    var testMap := NameIndex(catalog);
    var needed: set<string> := {};
    var toProcess := seq(|requested|, i requires 0 <= i < |requested| => requested[i].name);
    ghost var trail: seq<string> := [];
    ghost var universe := NameSet(requested) + DepNames(catalog);
    ResolveStart(testMap, requested, universe, toProcess);
    while |toProcess| > 0
      invariant ResolveState(testMap, requested, universe, needed, toProcess, trail)
      decreases |universe - needed|, |toProcess|
    {
      var current := toProcess[0];
      if current in needed {
        ResolveSkip(testMap, requested, universe, needed, toProcess, trail);
        toProcess := toProcess[1..];
        continue;
      }
      ResolveAdd(testMap, requested, universe, needed, toProcess, trail);
      RemoveShrinks(universe, needed, current);
      needed := needed + {current};
      toProcess := toProcess[1..];
      trail := trail + [current];
      ghost var pending0 := toProcess;
      if current in testMap {
        toProcess := QueueMissing(testMap[current].dependsOn, needed, toProcess);
      }
      ResolveQueued(catalog, testMap, requested, universe, needed, pending0, toProcess, trail, current);
    }
    r := KnownTests(catalog, testMap, needed);
    ResolveDone(catalog, requested, universe, needed, trail, r);
  }

  /** `[all_tests[name] for name in test_names if name in all_tests]` */
  function RequestedTests(allTests: map<string, TestSpec>, names: seq<string>): (r: seq<TestSpec>)
    ensures forall i :: 0 <= i < |names| && names[i] in allTests ==> allTests[names[i]] in r
    ensures forall p :: 0 <= p < |r| ==> r[p] in allTests.Values
    decreases |names|
  {
    if |names| == 0 then []
    else
      var rest := RequestedTests(allTests, names[1..]);
      assert forall i :: 1 <= i < |names| ==> names[i] == names[1..][i - 1];
      (if names[0] in allTests then [allTests[names[0]]] else []) + rest
  }

  /** A reordering runs the same names. */
  lemma {:induction false} PermutationNames(order: seq<TestSpec>, tests: seq<TestSpec>)
    requires multiset(order) == multiset(tests)
    ensures NameSet(order) == NameSet(tests)
  {
    forall n | n in NameSet(tests) ensures n in NameSet(order) {
      var i :| 0 <= i < |tests| && tests[i].name == n;
      assert tests[i] in multiset(order);
    }
    forall n | n in NameSet(order) ensures n in NameSet(tests) {
      var i :| 0 <= i < |order| && order[i].name == n;
      assert order[i] in multiset(tests);
    }
  }

  /** Each found name is the name of a requested test. */
  lemma {:induction false} RequestedNames(catalog: seq<TestSpec>, names: seq<string>)
    ensures forall i :: 0 <= i < |names| && names[i] in NameSet(catalog) ==> RequestedName(catalog, names, names[i])
  {
    IndexKeys(catalog);
    forall i | 0 <= i < |names| && names[i] in NameSet(catalog) ensures RequestedName(catalog, names, names[i]) {
      RequestedNameAt(catalog, names, i);
    }
  }

  /** `n` is the name of a requested test that the catalog knows. */
  predicate RequestedName(catalog: seq<TestSpec>, names: seq<string>, n: string)
  {
    var requested := RequestedTests(NameIndex(catalog), names);
    exists j :: 0 <= j < |requested| && requested[j].name == n && requested[j].name in NameSet(catalog)
  }

  lemma {:induction false} RequestedNameAt(catalog: seq<TestSpec>, names: seq<string>, i: nat)
    requires i < |names| && names[i] in NameIndex(catalog) && names[i] in NameSet(catalog)
    ensures RequestedName(catalog, names, names[i])
  {
    var index := NameIndex(catalog);
    var requested := RequestedTests(index, names);
    var j :| 0 <= j < |requested| && requested[j] == index[names[i]];
    assert requested[j].name == names[i];
  }

  /** The worklist state before the first pass: nothing needed, the requested names queued. */
  lemma {:induction false} ResolveStart(index: map<string, TestSpec>, requested: seq<TestSpec>, universe: set<string>, toProcess: seq<string>)
    requires |toProcess| == |requested| && forall i :: 0 <= i < |requested| ==> toProcess[i] == requested[i].name
    requires NameSet(requested) <= universe
    ensures ResolveState(index, requested, universe, {}, toProcess, [])
  {
    forall k | 0 <= k < |toProcess| ensures toProcess[k] in universe && Grounded(index, requested, [], 0, toProcess[k]) {
      assert requested[k].name in NameSet(requested);
    }
  }

  /** The worklist state with nothing left to process gives what `resolve_dependencies` promises of the known tests. */
  lemma {:induction false} ResolveDone(catalog: seq<TestSpec>, requested: seq<TestSpec>, universe: set<string>,
                                       needed: set<string>, trail: seq<string>, r: seq<TestSpec>)
    requires ResolveState(NameIndex(catalog), requested, universe, needed, [], trail)
    requires forall p :: 0 <= p < |r| ==> r[p].name in NameIndex(catalog) && NameIndex(catalog)[r[p].name] == r[p]
    requires forall n :: n in NameSet(r) <==> n in needed && n in NameIndex(catalog)
    ensures forall i :: 0 <= i < |requested| && requested[i].name in NameSet(catalog) ==> requested[i].name in NameSet(r)
    ensures forall p, d :: 0 <= p < |r| && d in r[p].dependsOn && d in NameSet(catalog) ==> d in NameSet(r)
    ensures forall c :: Closed(NameIndex(catalog), c) && NameSet(requested) <= c ==> NameSet(r) <= c
  {
    ResolveKeepsRequested(catalog, requested, needed, r);
    IndexKeys(catalog);
    ResolveClosedResult(NameIndex(catalog), needed, r);
    ResolveMinimal(NameIndex(catalog), requested, needed, trail, r);
  }


  // ---------------------------------------------------------------- implicit requirements

  /** A completed test whose name mentions "login" or "auth" (case-insensitively) handles login. */
  predicate HandlesLogin(name: string)
  {
    Contains(Lower(name), "login") || Contains(Lower(name), "auth")
  }

  /** A completed test whose name mentions "ide" or "launch" (case-insensitively) launches the IDE. */
  predicate HandlesIde(name: string)
  {
    Contains(Lower(name), "ide") || Contains(Lower(name), "launch")
  }

  /** `check_login_requirement`: scan the completed names for one that handles login. */
  method CheckLoginRequirement(test: TestSpec, completed: set<string>) returns (ok: bool)
    ensures ok <==> !test.requiresLogin || exists n :: n in completed && HandlesLogin(n)
  {
    if !test.requiresLogin {
      return true;
    }
    var rest := completed;
    while rest != {}
      invariant rest <= completed
      invariant forall n :: n in completed - rest ==> !HandlesLogin(n)
      decreases |rest|
    {
      var n :| n in rest;
      if HandlesLogin(n) {
        return true;
      }
      rest := rest - {n};
    }
    return false;
  }

  /** `check_ide_requirement`: scan the completed names for one that launches the IDE. */
  method CheckIdeRequirement(test: TestSpec, completed: set<string>) returns (ok: bool)
    ensures ok <==> !test.requiresIde || exists n :: n in completed && HandlesIde(n)
  {
    if !test.requiresIde {
      return true;
    }
    var rest := completed;
    while rest != {}
      invariant rest <= completed
      invariant forall n :: n in completed - rest ==> !HandlesIde(n)
      decreases |rest|
    {
      var n :| n in rest;
      if HandlesIde(n) {
        return true;
      }
      rest := rest - {n};
    }
    return false;
  }

  // ---------------------------------------------------------------- run_tests

  /** Why a test is skipped, given the tests completed and failed so far; `None` runs it. */
  function SkipReason(test: TestSpec, completed: set<string>, failed: set<string>): Option<string>
  {
    match FirstUnmet(test.dependsOn, completed, failed)
    case Some(reason) => Some(reason)
    case None =>
      if test.requiresLogin && !(exists n :: n in completed && HandlesLogin(n)) then Some("Login requirement not satisfied")
      else if test.requiresIde && !(exists n :: n in completed && HandlesIde(n)) then Some("IDE requirement not satisfied")
      else None
  }

  /** The reason for the first dependency, in list order, that failed or has not completed. */
  function FirstUnmet(deps: seq<string>, completed: set<string>, failed: set<string>): Option<string>
    decreases |deps|
  {
    if |deps| == 0 then None
    else if deps[0] in failed then Some("Dependency '" + deps[0] + "' failed")
    else if deps[0] !in completed then Some("Dependency '" + deps[0] + "' not completed")
    else FirstUnmet(deps[1..], completed, failed)
  }

  /** A test runs only when every dependency completed and none failed. */
  lemma {:induction false} FirstUnmetNone(deps: seq<string>, completed: set<string>, failed: set<string>)
    ensures FirstUnmet(deps, completed, failed).None? <==> forall j :: 0 <= j < |deps| ==> deps[j] in completed && deps[j] !in failed
    decreases |deps|
  {
    if |deps| > 0 {
      FirstUnmetNone(deps[1..], completed, failed);
      assert forall j :: 1 <= j < |deps| ==> deps[1..][j - 1] == deps[j];
    }
  }

  /** The dependency check of `run_tests`: a loop that stops at the first unmet dependency. */
  method DependencySkipReason(deps: seq<string>, completed: set<string>, failed: set<string>) returns (reason: Option<string>)
    ensures reason == FirstUnmet(deps, completed, failed)
  {
    for i := 0 to |deps|
      invariant FirstUnmet(deps, completed, failed) == FirstUnmet(deps[i..], completed, failed)
    {
      var dep := deps[i];
      assert deps[i..][1..] == deps[i + 1..];
      if dep in failed {
        return Some("Dependency '" + dep + "' failed");
      } else if dep !in completed {
        return Some("Dependency '" + dep + "' not completed");
      }
    }
    assert deps[|deps|..] == [];
    return None;
  }

  /** The dependency and implicit-requirement checks for one test, as `run_tests` orders them. */
  method DecideSkip(test: TestSpec, completed: set<string>, failed: set<string>) returns (reason: Option<string>)
    ensures reason == SkipReason(test, completed, failed)
  {
    reason := DependencySkipReason(test.dependsOn, completed, failed);
    if reason.None? {
      var loginOk := CheckLoginRequirement(test, completed);
      if !loginOk {
        reason := Some("Login requirement not satisfied");
      }
    }
    if reason.None? {
      var ideOk := CheckIdeRequirement(test, completed);
      if !ideOk {
        reason := Some("IDE requirement not satisfied");
      }
    }
  }

  /** What one test reports when it runs: `_run_single_test_with_managers`, which the model takes as input. */
  datatype Outcome = Outcome(success: bool, message: string)

  /** A `TestResult` without its duration. */
  datatype TestResult = TestResult(testName: string, success: bool, message: string)

  /** The names of the tests that succeeded: `completed_tests`. */
  function CompletedOf(results: seq<TestResult>): set<string>
  {
    set i | 0 <= i < |results| && results[i].success :: results[i].testName
  }

  /** The names of the tests that failed or were skipped: `failed_tests`. */
  function FailedOf(results: seq<TestResult>): set<string>
  {
    set i | 0 <= i < |results| && !results[i].success :: results[i].testName
  }

  /** The result `run_tests` records for `test`: a skip, or the test's own outcome. */
  function ResultOf(test: TestSpec, completed: set<string>, failed: set<string>, outcome: TestSpec -> Outcome): TestResult
  {
    match SkipReason(test, completed, failed)
    case Some(reason) => TestResult(test.name, false, "Skipped: " + reason)
    case None => TestResult(test.name, outcome(test).success, outcome(test).message)
  }

  /** The results after running `ordered` in order, each test seeing the results before it. */
  function Run(ordered: seq<TestSpec>, outcome: TestSpec -> Outcome): (rs: seq<TestResult>)
    ensures |rs| == |ordered|
    decreases |ordered|
  {
    if |ordered| == 0 then []
    else
      var before := Run(ordered[..|ordered| - 1], outcome);
      before + [ResultOf(ordered[|ordered| - 1], CompletedOf(before), FailedOf(before), outcome)]
  }

  /** Recording one more result adds its name to `completed` on success and to `failed` otherwise. */
  lemma {:induction false} SetsAppend(rs: seq<TestResult>, r: TestResult)
    ensures CompletedOf(rs + [r]) == CompletedOf(rs) + (if r.success then {r.testName} else {})
    ensures FailedOf(rs + [r]) == FailedOf(rs) + (if r.success then {} else {r.testName})
  {
    var t := rs + [r];
    assert t[|rs|] == r;
    forall n | n in CompletedOf(t) ensures n in CompletedOf(rs) + (if r.success then {r.testName} else {}) {
      var i :| 0 <= i < |t| && t[i].success && t[i].testName == n;
      if i < |rs| {
        assert rs[i] == t[i];
      }
    }
    forall n | n in CompletedOf(rs) ensures n in CompletedOf(t) {
      var i :| 0 <= i < |rs| && rs[i].success && rs[i].testName == n;
      assert t[i] == rs[i];
    }
    forall n | n in FailedOf(t) ensures n in FailedOf(rs) + (if r.success then {} else {r.testName}) {
      var i :| 0 <= i < |t| && !t[i].success && t[i].testName == n;
      if i < |rs| {
        assert rs[i] == t[i];
      }
    }
    forall n | n in FailedOf(rs) ensures n in FailedOf(t) {
      var i :| 0 <= i < |rs| && !rs[i].success && rs[i].testName == n;
      assert t[i] == rs[i];
    }
  }

  /** `test_states`: each result under its test's name, later results overwriting earlier ones. */
  function States(results: seq<TestResult>): map<string, TestResult>
    decreases |results|
  {
    if |results| == 0 then map[]
    else States(results[..|results| - 1])[results[|results| - 1].testName := results[|results| - 1]]
  }

  /** Running a prefix of the order records exactly the first results. */
  lemma {:induction false} RunPrefix(ordered: seq<TestSpec>, outcome: TestSpec -> Outcome, i: nat)
    requires i <= |ordered|
    ensures Run(ordered[..i], outcome) == Run(ordered, outcome)[..i]
    decreases |ordered|
  {
    if |ordered| > 0 {
      var p := ordered[..|ordered| - 1];
      assert ordered[..|ordered|] == ordered;
      if i < |ordered| {
        assert ordered[..i] == p[..i];
        RunPrefix(p, outcome, i);
      }
    }
  }

  /** The `i`-th result is what `ResultOf` gives after the results before it. */
  lemma {:induction false} RunResultAt(ordered: seq<TestSpec>, outcome: TestSpec -> Outcome, i: nat)
    requires i < |ordered|
    ensures Run(ordered, outcome)[i] ==
      ResultOf(ordered[i], CompletedOf(Run(ordered, outcome)[..i]), FailedOf(Run(ordered, outcome)[..i]), outcome)
    ensures Run(ordered, outcome)[i].testName == ordered[i].name
  {
    RunPrefix(ordered, outcome, i + 1);
    RunPrefix(ordered, outcome, i);
    assert ordered[..i + 1][..i] == ordered[..i];
    var rs := Run(ordered, outcome);
    assert rs[..i + 1][..i] == rs[..i];
    assert rs[..i + 1][i] == rs[i];
  }

  /** A name is completed by the results of a prefix when some earlier test of that name succeeded. */
  lemma {:induction false} SetsOfPrefix(rs: seq<TestResult>, ordered: seq<TestSpec>, i: nat, n: string)
    requires |rs| == |ordered| && i <= |rs|
    requires forall k :: 0 <= k < |rs| ==> rs[k].testName == ordered[k].name
    ensures n in CompletedOf(rs[..i]) <==> exists j :: 0 <= j < i && ordered[j].name == n && rs[j].success
    ensures n in FailedOf(rs[..i]) <==> exists j :: 0 <= j < i && ordered[j].name == n && !rs[j].success
  {
    var q := rs[..i];
    if n in CompletedOf(q) {
      var j :| 0 <= j < |q| && q[j].success && q[j].testName == n;
      assert rs[j] == q[j];
    }
    if exists j :: 0 <= j < i && ordered[j].name == n && rs[j].success {
      var j :| 0 <= j < i && ordered[j].name == n && rs[j].success;
      assert q[j] == rs[j];
    }
    if n in FailedOf(q) {
      var j :| 0 <= j < |q| && !q[j].success && q[j].testName == n;
      assert rs[j] == q[j];
    }
    if exists j :: 0 <= j < i && ordered[j].name == n && !rs[j].success {
      var j :| 0 <= j < i && ordered[j].name == n && !rs[j].success;
      assert q[j] == rs[j];
    }
  }

  /** Every result carries the name of the test at its position. */
  lemma {:induction false} RunNames(ordered: seq<TestSpec>, outcome: TestSpec -> Outcome)
    ensures forall k :: 0 <= k < |ordered| ==> Run(ordered, outcome)[k].testName == ordered[k].name
  {
    forall k | 0 <= k < |ordered| ensures Run(ordered, outcome)[k].testName == ordered[k].name {
      RunResultAt(ordered, outcome, k);
    }
  }

  /** A test is only ever run, and so can only succeed, when every dependency succeeded earlier and none failed. */
  lemma {:induction false} RanAfterDependencies(ordered: seq<TestSpec>, outcome: TestSpec -> Outcome, i: nat, d: string)
    requires i < |ordered| && d in ordered[i].dependsOn
    requires Run(ordered, outcome)[i].success
    ensures exists j :: 0 <= j < i && ordered[j].name == d && Run(ordered, outcome)[j].success
    ensures forall j :: 0 <= j < i && ordered[j].name == d ==> Run(ordered, outcome)[j].success
  {
    var rs := Run(ordered, outcome);
    RunResultAt(ordered, outcome, i);
    RunNames(ordered, outcome);
    var t := ordered[i];
    var completed, failed := CompletedOf(rs[..i]), FailedOf(rs[..i]);
    assert SkipReason(t, completed, failed).None?;
    FirstUnmetNone(t.dependsOn, completed, failed);
    var k :| 0 <= k < |t.dependsOn| && t.dependsOn[k] == d;
    assert d in completed && d !in failed;
    SetsOfPrefix(rs, ordered, i, d);
  }

  /** A test with a dependency that failed or was skipped earlier is skipped itself. */
  lemma {:induction false} SkipPropagates(ordered: seq<TestSpec>, outcome: TestSpec -> Outcome, i: nat, j: nat)
    requires j < i < |ordered| && ordered[j].name in ordered[i].dependsOn
    requires !Run(ordered, outcome)[j].success
    ensures exists reason :: Run(ordered, outcome)[i] == TestResult(ordered[i].name, false, "Skipped: " + reason)
  {
    var rs := Run(ordered, outcome);
    RunResultAt(ordered, outcome, i);
    RunNames(ordered, outcome);
    SetsOfPrefix(rs, ordered, i, ordered[j].name);
    var t := ordered[i];
    var completed, failed := CompletedOf(rs[..i]), FailedOf(rs[..i]);
    assert ordered[j].name in failed;
    FirstUnmetNone(t.dependsOn, completed, failed);
    var reason := SkipReason(t, completed, failed).value;
    assert rs[i] == TestResult(t.name, false, "Skipped: " + reason);
  }

  /** A test that is not skipped records its own outcome. */
  lemma {:induction false} RunRecordsOutcome(ordered: seq<TestSpec>, outcome: TestSpec -> Outcome, i: nat)
    requires i < |ordered|
    requires SkipReason(ordered[i], CompletedOf(Run(ordered, outcome)[..i]), FailedOf(Run(ordered, outcome)[..i])).None?
    ensures Run(ordered, outcome)[i] == TestResult(ordered[i].name, outcome(ordered[i]).success, outcome(ordered[i]).message)
  {
    RunResultAt(ordered, outcome, i);
  }

  /** With unique names, `test_states` maps each test to its own result and holds nothing else. */
  lemma {:induction false} StatesOfRun(results: seq<TestResult>)
    requires forall i, j :: 0 <= i < j < |results| ==> results[i].testName != results[j].testName
    ensures forall i :: 0 <= i < |results| ==> results[i].testName in States(results) && States(results)[results[i].testName] == results[i]
    ensures forall n :: n in States(results) ==> exists i :: 0 <= i < |results| && results[i].testName == n
    decreases |results|
  {
    if |results| > 0 {
      var p := results[..|results| - 1];
      StatesOfRun(p);
      assert forall i :: 0 <= i < |p| ==> p[i] == results[i];
    }
  }

  /** Running one more test appends its result to those before it. */
  lemma {:induction false} RunStep(ordered: seq<TestSpec>, outcome: TestSpec -> Outcome, i: nat)
    requires i < |ordered|
    ensures Run(ordered[..i + 1], outcome) ==
      Run(ordered[..i], outcome) + [ResultOf(ordered[i], CompletedOf(Run(ordered[..i], outcome)), FailedOf(Run(ordered[..i], outcome)), outcome)]
  {
    assert ordered[..i + 1][..i] == ordered[..i];
  }

  /** Recording the result of the next test in the order extends the run and its bookkeeping by that result. */
  lemma {:induction false} RunAdvance(ordered: seq<TestSpec>, outcome: TestSpec -> Outcome, i: nat, results: seq<TestResult>, result: TestResult)
    requires i < |ordered| && results == Run(ordered[..i], outcome)
    requires result == ResultOf(ordered[i], CompletedOf(results), FailedOf(results), outcome)
    ensures results + [result] == Run(ordered[..i + 1], outcome) && result.testName == ordered[i].name
    ensures CompletedOf(results + [result]) == CompletedOf(results) + (if result.success then {ordered[i].name} else {})
    ensures FailedOf(results + [result]) == FailedOf(results) + (if result.success then {} else {ordered[i].name})
    ensures States(results + [result]) == States(results)[ordered[i].name := result]
  {
    RunStep(ordered, outcome, i);
    SetsAppend(results, result);
    StatesAppend(results, result);
  }

  lemma {:induction false} StatesAppend(rs: seq<TestResult>, r: TestResult)
    ensures States(rs + [r]) == States(rs)[r.testName := r]
  {
    assert (rs + [r])[..|rs|] == rs;
  }

  /** The body of the loop of `run_tests` for one test: skip it, or run it. */
  method RunOne(test: TestSpec, completed: set<string>, failed: set<string>, outcome: TestSpec -> Outcome) returns (result: TestResult)
    ensures result == ResultOf(test, completed, failed, outcome)
  {
    var skip := DecideSkip(test, completed, failed);
    if skip.Some? {
      result := TestResult(test.name, false, "Skipped: " + skip.value);
    } else {
      var o := outcome(test);
      result := TestResult(test.name, o.success, o.message);
    }
  }

  /** What `run_tests` returns, without the summary report. */
  datatype RunReport = NoTests | CircularDependency(remaining: set<string>) | Finished

  class HierarchicalTestRunner {
    var results: seq<TestResult>
    var testStates: map<string, TestResult>

    constructor ()
      ensures results == [] && testStates == map[]
    {
      results := [];
      testStates := map[];
    }

    /**
     * `run_tests`: sort, then run each test in order, skipping those whose
     * dependencies or implicit requirements are not met.
     */
    method RunTests(tests: seq<TestSpec>, outcome: TestSpec -> Outcome) returns (report: RunReport, ordered: seq<TestSpec>)
      requires UniqueNames(tests)
      modifies this
      ensures |tests| == 0 ==> report == NoTests
      ensures report.CircularDependency? <==> |tests| > 0 && !HasDependencyOrder(tests)
      ensures report.CircularDependency? ==> report.remaining != {} && Blocked(tests, report.remaining)
      ensures !report.Finished? ==> results == old(results) && testStates == old(testStates)
      ensures report.Finished? ==> IsDependencyOrder(ordered, tests)
      ensures report.Finished? ==> results == Run(ordered, outcome) && testStates == States(results)
    {
      ordered := [];
      if |tests| == 0 {
        return NoTests, ordered;
      }
      var sorted := TopologicalSort(tests);
      if sorted.Err? {
        return CircularDependency(sorted.error), ordered;
      }
      ordered := sorted.value;
      RunInOrder(ordered, outcome);
      return Finished, ordered;
    }

    /**
     * `run_tests_by_names` over the discovered tests, whose discovery map is
     * keyed by name: the named tests that exist, with their dependencies, go
     * to `run_tests`, and every found name is run.
     */
    method RunTestsByNames(catalog: seq<TestSpec>, names: seq<string>, outcome: TestSpec -> Outcome)
      returns (report: RunReport, ordered: seq<TestSpec>)
      modifies this
      ensures report.Finished? ==> results == Run(ordered, outcome) && testStates == States(results)
      ensures report.Finished? ==> forall p :: 0 <= p < |ordered| ==> ordered[p] in catalog
      ensures report.Finished? ==> forall i :: 0 <= i < |names| && names[i] in NameSet(catalog) ==> names[i] in NameSet(ordered)
    {
      var allTests := NameIndex(catalog);
      var requested := RequestedTests(allTests, names);
      var tests := ResolveDependencies(catalog, requested);
      report, ordered := RunTests(tests, outcome);
      if report.Finished? {
        PermutationNames(ordered, tests);
        RequestedNames(catalog, names);
        forall i | 0 <= i < |names| && names[i] in NameSet(catalog) ensures names[i] in NameSet(ordered) {
          var j :| 0 <= j < |requested| && requested[j].name == names[i] && requested[j].name in NameSet(catalog);
        }
        forall p | 0 <= p < |ordered| ensures ordered[p] in catalog {
          assert ordered[p] in multiset(tests);
        }
      }
    }

    /** The loop of `run_tests` over the dependency order, recording each result and state. */
    method RunInOrder(ordered: seq<TestSpec>, outcome: TestSpec -> Outcome)
      modifies this
      ensures results == Run(ordered, outcome) && testStates == States(results)
    {
      var completed: set<string> := {};
      var failed: set<string> := {};
      var rs: seq<TestResult> := [];
      var states: map<string, TestResult> := map[];
      for i := 0 to |ordered|
        invariant rs == Run(ordered[..i], outcome)
        invariant completed == CompletedOf(rs) && failed == FailedOf(rs)
        invariant states == States(rs)
      {
        var test := ordered[i];
        var result := RunOne(test, completed, failed, outcome);
        RunAdvance(ordered, outcome, i, rs, result);
        if result.success {
          completed := completed + {test.name};
        } else {
          failed := failed + {test.name};
        }
        rs := rs + [result];
        states := states[test.name := result];
      }
      WholePrefix(ordered);
      results := rs;
      testStates := states;
    }
  }
}
