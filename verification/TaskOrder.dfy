/** The ordering loop of execute_tasks in tools/idf.py: the list of commands is turned into
    the order in which they run. */
module TaskOrder {

  type Name = string

  /** The commands of the tool: the names that exist, what each one needs to have run before
      it, and what must not run after it if it was asked for. `rank` witnesses that no command
      depends on itself, directly or not. */
  datatype Graph = Graph(names: set<Name>, deps: Name -> seq<Name>, orderDeps: Name -> seq<Name>, rank: Name -> nat)

  predicate Distinct(s: seq<Name>)
  {
    forall i, j :: 0 <= i < j < |s| ==> s[i] != s[j]
  }

  ghost predicate Acyclic(g: Graph)
  {
    forall n :: n in g.names ==>
      && Distinct(g.deps(n))
      && (forall d :: d in g.deps(n) ==> d in g.names && g.rank(d) < g.rank(n))
      && (forall d :: d in g.orderDeps(n) ==> g.rank(d) < g.rank(n))
  }

  function Elems(s: seq<Name>): set<Name>
  {
    set n | n in s
  }

  /** What was queued runs after its dependencies, and after those of its order dependencies
      that were asked for. */
  ghost predicate Sorted(g: Graph, initial: set<Name>, run: seq<Name>)
  {
    forall i :: 0 <= i < |run| ==>
      && (forall d :: d in g.deps(run[i]) ==> d in run[..i])
      && (forall d :: d in g.orderDeps(run[i]) && d in initial ==> d in run[..i])
  }

  /** `s` holds the initial names and whatever its members depend on. */
  ghost predicate Closed(g: Graph, initial: set<Name>, s: set<Name>)
  {
    initial <= s && forall n, d :: n in s && d in g.deps(n) ==> d in s
  }

  /** `r` holds whatever can be moved to the front because of its members: their dependencies,
      and their order dependencies as far as they are `needed`. */
  ghost predicate Pulls(g: Graph, needed: set<Name>, r: set<Name>)
  {
    forall n :: n in r ==>
      && (forall d :: d in g.deps(n) ==> d in r)
      && (forall d :: d in g.orderDeps(n) && d in needed ==> d in r)
  }

  /** Nothing outside of `r` is in front of a member of `t`. */
  predicate NoneBefore(tasks: seq<Name>, t: set<Name>, r: set<Name>)
  {
    forall i, j :: 0 <= i < j < |tasks| ==> !(tasks[j] in t && tasks[i] !in r)
  }

  /** Only members of `moved` have come forward. */
  ghost predicate Stable(before: seq<Name>, after: seq<Name>, moved: set<Name>)
  {
    forall t, r :: NoneBefore(before, t, r) && moved <= r ==> NoneBefore(after, t, r)
  }

  /** What was queued from outside of `r` has all of `t` in front of it. */
  predicate AllBefore(run: seq<Name>, t: set<Name>, r: set<Name>)
  {
    forall i :: 0 <= i < |run| && run[i] !in r ==> t <= Elems(run[..i])
  }

  /** The first names of the list are in `r` with all that they can pull. */
  ghost predicate Group(g: Graph, needed: set<Name>, tasks0: seq<Name>, i: int, r: set<Name>)
  {
    0 <= i <= |tasks0| && Elems(tasks0[..i]) <= r && Pulls(g, needed, r)
  }

  /** The given order is kept against everything that the first names do not pull. */
  ghost predicate Keeps(g: Graph, tasks0: seq<Name>, tasks: seq<Name>, run: seq<Name>)
  {
    forall needed, i: int, r :: Closed(g, Elems(tasks0), needed) && Group(g, needed, tasks0, i, r) ==>
      && NoneBefore(tasks, Elems(tasks0[..i]), r)
      && AllBefore(run, Elems(tasks0[..i]), r)
  }

  /** What holds whenever the loop looks at the list. */
  ghost predicate Inv(g: Graph, initial: set<Name>, tasks: seq<Name>, run: seq<Name>)
  {
    && Distinct(tasks) && Distinct(run) && Elems(tasks) !! Elems(run)
    && Elems(tasks) + Elems(run) <= g.names
    && initial <= Elems(tasks) + Elems(run)
    && Sorted(g, initial, run)
    && forall s :: Closed(g, initial, s) ==> Elems(tasks) + Elems(run) <= s
  }

  /** `tasks` with the task at `k` moved to the front. */
  function ToFront(tasks: seq<Name>, k: nat): (r: seq<Name>)
    requires k < |tasks|
    ensures |r| == |tasks| && r[0] == tasks[k]
    ensures Elems(r) == Elems(tasks)
    ensures Distinct(tasks) ==> Distinct(r)
    ensures Stable(tasks, r, {tasks[k]})
  {
    assert tasks == tasks[..k] + [tasks[k]] + tasks[k + 1..];
    [tasks[k]] + tasks[..k] + tasks[k + 1..]
  }

  /** list.index */
  method Index(tasks: seq<Name>, name: Name) returns (k: nat)
    requires name in tasks
    ensures k < |tasks| && tasks[k] == name && name !in tasks[..k]
  {
    k := 0;
    while tasks[k] != name
      invariant k < |tasks| && name !in tasks[..k] && name in tasks[k..]
      decreases |tasks| - k
    {
      k := k + 1;
    }
  }

  /** The dependencies of the first task: those that were not queued yet are moved or added to
      the front of the list. `listed` are the names in the list before. */
  method PullDeps(g: Graph, task: Name, listed: set<Name>, tasks0: seq<Name>, run: seq<Name>)
    returns (tasks: seq<Name>, done: bool)
    requires Distinct(tasks0) && listed == Elems(tasks0) && listed !! Elems(run)
    requires Distinct(g.deps(task))
    ensures Distinct(tasks) && Elems(tasks) !! Elems(run)
    ensures Elems(tasks) == listed + Missing(g.deps(task), run)
    ensures done <==> forall d :: d in g.deps(task) ==> d in run
    ensures done ==> tasks == tasks0
    ensures !done ==> tasks != [] && tasks[0] in g.deps(task)
    ensures Stable(tasks0, tasks, Elems(g.deps(task)))
  {
    tasks, done := tasks0, true;
    var deps := g.deps(task);
    for i := 0 to |deps|
      invariant Distinct(tasks) && Elems(tasks) !! Elems(run)
      invariant Elems(tasks) == listed + Missing(deps[..i], run)
      invariant Stable(tasks0, tasks, Elems(deps))
      invariant done <==> forall d :: d in deps[..i] ==> d in run
      invariant done ==> tasks == tasks0
      invariant !done ==> tasks != [] && tasks[0] in deps
    {
      var dep := deps[i];
      assert deps[..i + 1] == deps[..i] + [dep];
      MissingNext(deps, i, run);
      if dep !in run {
        if dep in listed {
          assert dep in Elems(tasks);
          var k := Index(tasks, dep);
          tasks := ToFront(tasks, k);
        } else {
          NotYet(deps, i, run, tasks, listed);
          tasks := InFront(dep, tasks);
        }
        done := false;
      }
    }
    assert deps[..|deps|] == deps;
  }

  /** The dependencies that were not queued. */
  function Missing(deps: seq<Name>, run: seq<Name>): set<Name>
  {
    set d | d in deps && d !in run
  }

  lemma MissingNext(deps: seq<Name>, i: nat, run: seq<Name>)
    requires i < |deps|
    ensures Missing(deps[..i + 1], run) == Missing(deps[..i], run) + if deps[i] in run then {} else {deps[i]}
  {
    assert deps[..i + 1] == deps[..i] + [deps[i]];
  }

  /** A new name is not in the list yet. */
  lemma NotYet(deps: seq<Name>, i: nat, run: seq<Name>, tasks: seq<Name>, listed: set<Name>)
    requires Distinct(deps) && i < |deps| && deps[i] !in listed
    requires Elems(tasks) == listed + Missing(deps[..i], run)
    ensures deps[i] !in tasks
  {
    assert deps[i] !in deps[..i];
    assert deps[i] !in Elems(tasks);
  }

  function InFront(n: Name, tasks: seq<Name>): (r: seq<Name>)
    ensures |r| == |tasks| + 1 && r[0] == n && Elems(r) == Elems(tasks) + {n}
    ensures Distinct(tasks) && n !in tasks ==> Distinct(r)
    ensures Stable(tasks, r, {n})
  {
    [n] + tasks
  }

  /** The order dependencies of the first task: those in the list are moved to the front. */
  method PullOrder(g: Graph, task: Name, listed: set<Name>, tasks0: seq<Name>, run: seq<Name>)
    returns (tasks: seq<Name>, done: bool)
    requires Distinct(tasks0) && listed <= Elems(tasks0) && Elems(tasks0) !! Elems(run)
    ensures Distinct(tasks) && Elems(tasks) == Elems(tasks0)
    ensures done <==> forall d :: d in g.orderDeps(task) ==> d !in listed
    ensures done ==> tasks == tasks0
    ensures !done ==> tasks != [] && tasks[0] in g.orderDeps(task)
    ensures Stable(tasks0, tasks, Elems(g.orderDeps(task)) * listed)
  {
    tasks, done := tasks0, true;
    var deps := g.orderDeps(task);
    for i := 0 to |deps|
      invariant Distinct(tasks) && Elems(tasks) == Elems(tasks0)
      invariant Stable(tasks0, tasks, Elems(deps) * listed)
      invariant done <==> forall d :: d in deps[..i] ==> d !in listed
      invariant done ==> tasks == tasks0
      invariant !done ==> tasks != [] && tasks[0] in deps
    {
      var dep := deps[i];
      assert deps[..i + 1] == deps[..i] + [dep];
      if dep in listed && dep !in run {
        var k := Index(tasks, dep);
        tasks := ToFront(tasks, k);
        done := false;
      }
    }
    assert deps[..|deps|] == deps;
  }

  /** A task whose dependencies were queued is queued itself. */
  lemma InvQueue(g: Graph, initial: set<Name>, tasks: seq<Name>, run: seq<Name>)
    requires Inv(g, initial, tasks, run) && tasks != []
    requires forall d :: d in g.deps(tasks[0]) ==> d in run
    requires forall d :: d in g.orderDeps(tasks[0]) ==> d !in tasks
    ensures Inv(g, initial, tasks[1..], run + [tasks[0]])
  {
    var rest, run' := tasks[1..], run + [tasks[0]];
    assert Elems(rest) == Elems(tasks) - {tasks[0]};
    assert Elems(run') == Elems(run) + {tasks[0]};
    assert run'[..|run|] == run;
    forall i | 0 <= i < |run'|
      ensures forall d :: d in g.deps(run'[i]) ==> d in run'[..i]
      ensures forall d :: d in g.orderDeps(run'[i]) && d in initial ==> d in run'[..i]
    {
      if i < |run| {
        assert run'[..i] == run[..i];
      } else {
        forall d | d in g.orderDeps(tasks[0]) && d in initial
          ensures d in run
        {
          assert d in Elems(tasks) + Elems(run);
        }
      }
    }
  }

  /** Moving tasks and listing missing dependencies keeps the invariant. */
  lemma InvPull(g: Graph, initial: set<Name>, tasks: seq<Name>, run: seq<Name>, pulled: seq<Name>)
    requires Acyclic(g) && Inv(g, initial, tasks, run) && tasks != []
    requires Distinct(pulled) && Elems(pulled) == Elems(tasks) + Missing(g.deps(tasks[0]), run)
    ensures Inv(g, initial, pulled, run)
  {
    assert tasks[0] in Elems(tasks);
    forall s | Closed(g, initial, s)
      ensures Elems(pulled) + Elems(run) <= s
    {
      assert tasks[0] in s;
    }
  }

  lemma Subset(a: set<Name>, b: set<Name>)
    requires a <= b
    ensures |a| <= |b| && (a != b ==> |a| < |b|)
  {
    assert b == a + (b - a);
  }

  /** What gets smaller when the first task has to wait. */
  lemma PullShrinks(g: Graph, tasks: seq<Name>, run: seq<Name>, pulled: seq<Name>)
    requires Elems(tasks) <= Elems(pulled) <= g.names && Elems(pulled) !! Elems(run)
    ensures var a, b := g.names - Elems(run) - Elems(tasks), g.names - Elems(run) - Elems(pulled);
            |b| < |a| || (|b| == |a| && Elems(pulled) == Elems(tasks))
  {
    Subset(g.names - Elems(run) - Elems(pulled), g.names - Elems(run) - Elems(tasks));
    if Elems(pulled) != Elems(tasks) {
      var n :| n in Elems(pulled) && n !in Elems(tasks);
      assert n in g.names - Elems(run) - Elems(tasks) && n !in g.names - Elems(run) - Elems(pulled);
    }
  }

  lemma QueueShrinks(g: Graph, run: seq<Name>, task: Name)
    requires task in g.names && task !in run
    ensures |g.names - Elems(run + [task])| < |g.names - Elems(run)|
  {
    assert g.names - Elems(run + [task]) == g.names - Elems(run) - {task};
    assert task in g.names - Elems(run);
  }

  lemma InvStart(g: Graph, tasks: seq<Name>)
    requires Distinct(tasks) && Elems(tasks) <= g.names
    ensures Inv(g, Elems(tasks), tasks, [])
  {
  }

  lemma InvEnd(g: Graph, initial: set<Name>, run: seq<Name>)
    requires Inv(g, initial, [], run)
    ensures Distinct(run) && Sorted(g, initial, run) && Closed(g, initial, Elems(run))
    ensures forall s :: Closed(g, initial, s) ==> Elems(run) <= s
  {
    assert Elems([]) + Elems(run) == Elems(run);
    forall n, d | n in Elems(run) && d in g.deps(n)
      ensures d in Elems(run)
    {
      var i :| 0 <= i < |run| && run[i] == n;
      assert d in run[..i];
    }
  }

  lemma StableTwice(a: seq<Name>, b: seq<Name>, c: seq<Name>, m: set<Name>, n: set<Name>)
    requires Stable(a, b, m) && Stable(b, c, n)
    ensures Stable(a, c, m + n)
  {
  }

  lemma KeepsStart(g: Graph, tasks: seq<Name>)
    requires Distinct(tasks)
    ensures Keeps(g, tasks, tasks, [])
  {
    forall needed, i: int, r | Closed(g, Elems(tasks), needed) && Group(g, needed, tasks, i, r)
      ensures NoneBefore(tasks, Elems(tasks[..i]), r)
    {
      forall a, b | 0 <= a < b < |tasks| && tasks[b] in Elems(tasks[..i])
        ensures tasks[a] in r
      {
        var k :| 0 <= k < i && tasks[k] == tasks[b];
        assert b == k && tasks[a] == tasks[..i][a];
      }
    }
  }

  /** While some of the first names wait, the task in front belongs to their group. */
  lemma FrontInGroup(tasks: seq<Name>, t: set<Name>, r: set<Name>, n: Name)
    requires NoneBefore(tasks, t, r) && t <= r && n in tasks && n in t
    ensures tasks[0] in r
  {
    var j :| 0 <= j < |tasks| && tasks[j] == n;
  }

  lemma KeepsPull(g: Graph, tasks0: seq<Name>, tasks: seq<Name>, run: seq<Name>, next: seq<Name>)
    requires Inv(g, Elems(tasks0), tasks, run) && Keeps(g, tasks0, tasks, run) && tasks != []
    requires Elems(next) !! Elems(run)
    requires Stable(tasks, next, Elems(g.deps(tasks[0])) + Elems(g.orderDeps(tasks[0])) * Elems(tasks))
    ensures Keeps(g, tasks0, next, run)
  {
    forall needed, i: int, r | Closed(g, Elems(tasks0), needed) && Group(g, needed, tasks0, i, r)
      ensures NoneBefore(next, Elems(tasks0[..i]), r) && AllBefore(run, Elems(tasks0[..i]), r)
    {
      var t := Elems(tasks0[..i]);
      assert NoneBefore(tasks, t, r) && AllBefore(run, t, r);
      if n :| n in tasks && n in t {
        FrontInGroup(tasks, t, r, n);
        assert Elems(tasks) <= needed;
        assert Elems(g.deps(tasks[0])) + Elems(g.orderDeps(tasks[0])) * Elems(tasks) <= r;
      } else {
        NoneLeft(tasks0, i, tasks, run, next);
      }
    }
  }

  lemma NoneLeft(tasks0: seq<Name>, i: nat, tasks: seq<Name>, run: seq<Name>, next: seq<Name>)
    requires i <= |tasks0| && Elems(tasks0) <= Elems(tasks) + Elems(run)
    requires forall n :: n in tasks ==> n !in Elems(tasks0[..i])
    requires Elems(next) !! Elems(run)
    ensures Elems(tasks0[..i]) <= Elems(run)
    ensures forall n :: n in next ==> n !in Elems(tasks0[..i])
  {
    forall n | n in Elems(tasks0[..i])
      ensures n in Elems(run)
    {
      assert n in Elems(tasks0);
    }
    forall n | n in next
      ensures n !in Elems(tasks0[..i])
    {
      assert n in Elems(next);
    }
  }

  lemma KeepsQueue(g: Graph, tasks0: seq<Name>, tasks: seq<Name>, run: seq<Name>)
    requires Inv(g, Elems(tasks0), tasks, run) && Keeps(g, tasks0, tasks, run) && tasks != []
    ensures Keeps(g, tasks0, tasks[1..], run + [tasks[0]])
  {
    forall needed, i: int, r | Closed(g, Elems(tasks0), needed) && Group(g, needed, tasks0, i, r)
      ensures NoneBefore(tasks[1..], Elems(tasks0[..i]), r)
      ensures AllBefore(run + [tasks[0]], Elems(tasks0[..i]), r)
    {
      var t := Elems(tasks0[..i]);
      assert NoneBefore(tasks, t, r) && AllBefore(run, t, r);
      if n :| n in tasks && n in t {
        FrontInGroup(tasks, t, r, n);
      } else {
        NoneLeft(tasks0, i, tasks, run, tasks);
      }
      QueueOne(run, tasks[0], t, r);
    }
  }

  lemma QueueOne(run: seq<Name>, n: Name, t: set<Name>, r: set<Name>)
    requires AllBefore(run, t, r) && (n in r || t <= Elems(run))
    ensures AllBefore(run + [n], t, r)
  {
    var run' := run + [n];
    forall i | 0 <= i < |run'| && run'[i] !in r
      ensures t <= Elems(run'[..i])
    {
      assert run'[..i] == run[..i];
    }
  }

  /** The first commands of the list run before everything that they do not pull. */
  ghost predicate KeepsOrder(g: Graph, tasks0: seq<Name>, run: seq<Name>)
  {
    forall i: int, r :: Group(g, Elems(run), tasks0, i, r) ==> AllBefore(run, Elems(tasks0[..i]), r)
  }

  /** Commands of which each comes behind its dependencies and its listed order dependencies
      run exactly as they are given. */
  lemma GivenOrderKept(g: Graph, tasks0: seq<Name>, run: seq<Name>)
    requires Distinct(tasks0) && Distinct(run) && KeepsOrder(g, tasks0, run)
    requires Elems(tasks0) <= Elems(run) && forall s :: Closed(g, Elems(tasks0), s) ==> Elems(run) <= s
    requires Sorted(g, Elems(tasks0), tasks0)
    ensures run == tasks0
  {
    assert Closed(g, Elems(tasks0), Elems(tasks0)) by {
      forall n, d | n in Elems(tasks0) && d in g.deps(n)
        ensures d in Elems(tasks0)
      {
        var j :| 0 <= j < |tasks0| && tasks0[j] == n;
        assert d in tasks0[..j];
      }
    }
    assert Elems(run) == Elems(tasks0);
    forall i | 0 <= i <= |tasks0|
      ensures AllBefore(run, Elems(tasks0[..i]), Elems(tasks0[..i]))
    {
      PrefixPulls(g, tasks0, i);
      assert Group(g, Elems(run), tasks0, i, Elems(tasks0[..i]));
    }
    SameOrder(tasks0, run, |tasks0|);
    SameLength(tasks0, run);
  }

  lemma PrefixPulls(g: Graph, tasks0: seq<Name>, i: nat)
    requires i <= |tasks0| && Sorted(g, Elems(tasks0), tasks0)
    ensures Pulls(g, Elems(tasks0), Elems(tasks0[..i]))
  {
    forall n | n in Elems(tasks0[..i])
      ensures forall d :: d in g.deps(n) ==> d in Elems(tasks0[..i])
      ensures forall d :: d in g.orderDeps(n) && d in Elems(tasks0) ==> d in Elems(tasks0[..i])
    {
      var j :| 0 <= j < i && tasks0[j] == n;
      assert tasks0[..i][..j] == tasks0[..j];
      assert forall d :: d in tasks0[..j] ==> d in tasks0[..i];
    }
  }

  /** Where every beginning of `a` comes first in `b`, the two begin alike. */
  lemma {:induction false} SameOrder(a: seq<Name>, b: seq<Name>, k: nat)
    requires Distinct(a) && Distinct(b) && Elems(a) == Elems(b) && k <= |a|
    requires forall i :: 0 <= i <= |a| ==> AllBefore(b, Elems(a[..i]), Elems(a[..i]))
    ensures k <= |b| && b[..k] == a[..k]
  {
    if k > 0 {
      SameOrder(a, b, k - 1);
      SameNext(a, b, k - 1);
    }
  }

  lemma SameNext(a: seq<Name>, b: seq<Name>, i: nat)
    requires Distinct(a) && Distinct(b) && Elems(a) == Elems(b) && i < |a|
    requires AllBefore(b, Elems(a[..i + 1]), Elems(a[..i + 1]))
    requires i <= |b| && b[..i] == a[..i]
    ensures i < |b| && b[i] == a[i]
  {
    assert forall m :: 0 <= m < i ==> b[..i][m] == b[m] && a[..i][m] == a[m];
    assert a[i] in Elems(b);
    var j :| 0 <= j < |b| && b[j] == a[i];
    assert j >= i;
    assert a[..i + 1][i] == a[i];
    assert a[i] in Elems(a[..i + 1]) && a[i] !in Elems(b[..i]);
    assert b[i] in Elems(a[..i + 1]);
    var m :| 0 <= m < i + 1 && a[m] == b[i];
    assert m >= i;
  }

  lemma SameLength(a: seq<Name>, b: seq<Name>)
    requires Distinct(a) && Distinct(b) && Elems(a) == Elems(b) && |a| <= |b| && b[..|a|] == a
    ensures a == b
  {
    if |a| < |b| {
      PlaceBelow(a, b, |a|);
    }
  }

  lemma PlaceBelow(a: seq<Name>, b: seq<Name>, i: nat)
    requires Distinct(b) && Elems(a) == Elems(b) && |a| <= |b| && b[..|a|] == a && i < |b|
    ensures i < |a|
  {
    assert b[i] in Elems(b);
    var m :| 0 <= m < |a| && a[m] == b[i];
    assert b[..|a|][m] == b[m];
  }

  /** The loop of execute_tasks. It ends, for every acyclic graph: each round queues a task, or
      lists a new one, or brings a task of lower rank to the front. The result holds exactly
      the given commands and what they depend on, each once and in a proper order; and the first
      commands of the list run before everything that they do not pull in front of them. */
  method Order(g: Graph, tasks0: seq<Name>) returns (run: seq<Name>)
    requires Acyclic(g) && Distinct(tasks0) && Elems(tasks0) <= g.names
    ensures Distinct(run)
    ensures Sorted(g, Elems(tasks0), run)
    ensures Closed(g, Elems(tasks0), Elems(run))
    ensures forall s :: Closed(g, Elems(tasks0), s) ==> Elems(run) <= s
    ensures KeepsOrder(g, tasks0, run)
  {
    var tasks := tasks0;
    ghost var initial := Elems(tasks0);
    run := [];
    InvStart(g, tasks0);
    KeepsStart(g, tasks0);
    while tasks != []
      invariant Inv(g, initial, tasks, run) && Keeps(g, tasks0, tasks, run)
      decreases |g.names - Elems(run)|, |g.names - Elems(run) - Elems(tasks)|,
                if tasks == [] then 0 else g.rank(tasks[0])
    {
      var task := tasks[0];
      assert task in Elems(tasks);
      var done, next := Round(g, initial, tasks, run);
      if done {
        InvQueue(g, initial, tasks, run);
        KeepsQueue(g, tasks0, tasks, run);
        QueueShrinks(g, run, task);
        tasks := tasks[1..];
        if task !in run {
          run := run + [task];
        }
      } else {
        PullShrinks(g, tasks, run, next);
        KeepsPull(g, tasks0, tasks, run, next);
        tasks := next;
      }
    }
    InvEnd(g, initial, run);
  }

  /** The part of a round that looks at the dependencies of the first task. */
  method Round(g: Graph, ghost initial: set<Name>, tasks: seq<Name>, run: seq<Name>)
    returns (done: bool, next: seq<Name>)
    requires Acyclic(g) && Inv(g, initial, tasks, run) && tasks != []
    ensures done ==> forall d :: d in g.deps(tasks[0]) ==> d in run
    ensures done ==> forall d :: d in g.orderDeps(tasks[0]) ==> d !in tasks
    ensures !done ==> Inv(g, initial, next, run) && next != [] && Elems(tasks) <= Elems(next)
    ensures !done ==> g.rank(next[0]) < g.rank(tasks[0])
    ensures !done ==> Stable(tasks, next, Elems(g.deps(tasks[0])) + Elems(g.orderDeps(tasks[0])) * Elems(tasks))
    ensures !done ==> Elems(next) !! Elems(run)
  {
    var task := tasks[0];
    assert task in Elems(tasks);
    var listed := Elems(tasks);
    var pulled, depsDone := PullDeps(g, task, listed, tasks, run);
    InvPull(g, initial, tasks, run, pulled);
    var orderDone;
    next, orderDone := PullOrder(g, task, listed, pulled, run);
    InvPull(g, initial, tasks, run, next);
    done := depsDone && orderDone;
    StableTwice(tasks, pulled, next, Elems(g.deps(task)), Elems(g.orderDeps(task)) * listed);
  }
}
