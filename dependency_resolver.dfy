/** DependencyResolver (DependencyResolver.h/.cpp): a registry of engine
    systems with a dependency map, ordered by a depth-first post-order sort
    before the systems are initialised. An ISystem* is a `SystemRef`
    (reference identity stands for address identity); its OnInit answer is the
    constant `initSucceeds`, standing for the virtual call. */
module DependencyResolver {
  import opened Wrappers

  class SystemRef {
    /** GetSystemName(). */
    const name: string
    /** What OnInit returns for this system. */
    const initSucceeds: bool

    constructor (name: string, initSucceeds: bool)
      ensures this.name == name && this.initSucceeds == initSucceeds
    {
      this.name := name;
      this.initSucceeds := initSucceeds;
    }
  }

  /** The exception thrown by DFS on a back-edge. THROW_EXCEPTION_MSG takes
      a single argument, so the node name passed after the format string is
      dropped and the message is the format string itself. */
  datatype ResolverError = CycleDetected(message: string)

  const CycleMessage: string := "Cycle Detected with {}"

  /** The three per-frame hooks driven by the update and release loops. */
  datatype Hook = UpdateStart | UpdateEnd | Release
  datatype Call = Call(hook: Hook, system: SystemRef)

  predicate NoDuplicates(s: seq<SystemRef>) {
    forall i, j :: 0 <= i < j < |s| ==> s[i] != s[j]
  }

  predicate UniqueNames(s: seq<SystemRef>) {
    forall i, j :: 0 <= i < j < |s| ==> s[i].name != s[j].name
  }

  predicate HasName(s: seq<SystemRef>, name: string) {
    exists i :: 0 <= i < |s| && s[i].name == name
  }

  /** Every system that appears as somebody's dependency. */
  function DepValues(deps: map<SystemRef, seq<SystemRef>>): set<SystemRef> {
    set k, x | k in deps && x in deps[k] :: x
  }

  /** Each entry's listed dependencies occur strictly earlier in `order`. */
  predicate DepsBefore(order: seq<SystemRef>, deps: map<SystemRef, seq<SystemRef>>) {
    forall i, d :: 0 <= i < |order| && order[i] in deps && d in deps[order[i]] ==>
      exists j :: 0 <= j < i && order[j] == d
  }

  /** What a successful sort promises about the new list: no entry twice,
      every registered system kept, dependencies first, and nothing that is
      neither registered nor a dependency. */
  predicate SortedOrder(before: seq<SystemRef>, after: seq<SystemRef>, deps: map<SystemRef, seq<SystemRef>>) {
    && NoDuplicates(after)
    && (forall x :: x in before ==> x in after)
    && DepsBefore(after, deps)
    && (forall x :: x in after ==> x in before || x in DepValues(deps))
  }

  /** The single-argument Register on a list: ignore null and any name
      already present, otherwise append. */
  function RegisterOne(s: seq<SystemRef>, p: SystemRef?): (r: seq<SystemRef>)
    ensures p == null || HasName(s, p.name) ==> r == s
    ensures p != null && !HasName(s, p.name) ==> r == s + [p]
  {
    if p == null || HasName(s, p.name) then s else s + [p]
  }

  /** The variadic Register: the single-argument one, left to right. */
  function RegisterEach(s: seq<SystemRef>, ps: seq<SystemRef?>): seq<SystemRef>
    decreases |ps|
  {
    if |ps| == 0 then s else RegisterEach(RegisterOne(s, ps[0]), ps[1..])
  }

  /** The erase_if of Unregister: drop every entry with that name. */
  function WithoutName(s: seq<SystemRef>, name: string): (r: seq<SystemRef>)
    ensures |r| <= |s|
    ensures forall x :: x in r ==> x in s && x.name != name
    ensures forall x :: x in s && x.name != name ==> x in r
  {
    if |s| == 0 then []
    else
      var n := |s| - 1;
      var rest := WithoutName(s[..n], name);
      assert forall x :: x in s ==> x in s[..n] || x == s[n];
      assert forall x :: x in s[..n] ==> x in s;
      if s[n].name == name then rest else rest + [s[n]]
  }

  /** The variadic Unregister, with null arguments ignored. */
  function UnregisterEach(s: seq<SystemRef>, ps: seq<SystemRef?>): seq<SystemRef>
    decreases |ps|
  {
    if |ps| == 0 then s
    else UnregisterEach(if ps[0] == null then s else WithoutName(s, ps[0].name), ps[1..])
  }

  /** The systems whose OnInit runs: all of them up to and including the
      first that fails. */
  function InitCalls(s: seq<SystemRef>): (r: seq<SystemRef>)
    ensures r <= s
    ensures forall k :: 0 <= k < |r| - 1 ==> r[k].initSucceeds
    ensures |r| < |s| ==> |r| > 0 && !r[|r| - 1].initSucceeds
    ensures (forall x :: x in s ==> x.initSucceeds) ==> r == s
  {
    if |s| == 0 then []
    else if !s[0].initSucceeds then [s[0]]
    else [s[0]] + InitCalls(s[1..])
  }

  lemma ProperSubsetSmaller(a: set<SystemRef>, b: set<SystemRef>)
    requires a < b
    ensures |a| < |b|
  {
    var x :| x in b && x !in a;
    assert a <= b - {x};
    SubsetNotLarger(a, b - {x});
  }

  lemma {:induction false} SubsetNotLarger(a: set<SystemRef>, b: set<SystemRef>)
    requires a <= b
    ensures |a| <= |b|
    decreases |a|
  {
    if a != {} {
      var x :| x in a;
      SubsetNotLarger(a - {x}, b - {x});
    }
  }

  /** InitCalls ends at the first failing system. */
  lemma {:induction false} InitCallsStopAt(s: seq<SystemRef>, i: nat)
    requires i < |s| && !s[i].initSucceeds
    requires forall k :: 0 <= k < i ==> s[k].initSucceeds
    ensures InitCalls(s) == s[..i + 1]
    decreases i
  {
    if i > 0 {
      InitCallsStopAt(s[1..], i - 1);
      assert s[..i + 1] == [s[0]] + s[1..][..i];
    }
  }

  /** Registering keeps names unique. */
  lemma {:induction false} RegisterKeepsNamesUnique(s: seq<SystemRef>, ps: seq<SystemRef?>)
    requires UniqueNames(s)
    ensures UniqueNames(RegisterEach(s, ps))
    decreases |ps|
  {
    if |ps| > 0 {
      var s1 := RegisterOne(s, ps[0]);
      if ps[0] != null && !HasName(s, ps[0].name) {
        forall i, j | 0 <= i < j < |s1| ensures s1[i].name != s1[j].name {
          if j == |s| {
            assert s1[i] == s[i];
          }
        }
      }
      RegisterKeepsNamesUnique(s1, ps[1..]);
    }
  }

  /** Registering appends: the old list is a prefix of the new one, and a
      system is never registered twice under the same name. */
  lemma {:induction false} RegisterOnlyAppends(s: seq<SystemRef>, ps: seq<SystemRef?>)
    ensures s <= RegisterEach(s, ps)
    ensures forall x :: x in RegisterEach(s, ps) ==> x in s || x in ps
    decreases |ps|
  {
    if |ps| > 0 {
      RegisterOnlyAppends(RegisterOne(s, ps[0]), ps[1..]);
    }
  }

  /** Unregister keeps the other systems in their order: it distributes over
      concatenation. */
  lemma {:induction false} WithoutNameKeepsOrder(a: seq<SystemRef>, b: seq<SystemRef>, name: string)
    ensures WithoutName(a + b, name) == WithoutName(a, name) + WithoutName(b, name)
    decreases |b|
  {
    if |b| > 0 {
      var n := |b| - 1;
      assert (a + b)[..|a + b| - 1] == a + b[..n];
      assert (a + b)[|a + b| - 1] == b[n];
      WithoutNameKeepsOrder(a, b[..n], name);
    } else {
      assert a + b == a;
    }
  }

  /** After the variadic Unregister no remaining system has any of the
      given names. */
  lemma {:induction false} UnregisterRemovesNames(s: seq<SystemRef>, ps: seq<SystemRef?>)
    ensures forall x :: x in UnregisterEach(s, ps) ==> x in s
    ensures forall x, k :: x in UnregisterEach(s, ps) && 0 <= k < |ps| && ps[k] != null ==> x.name != ps[k].name
    decreases |ps|
  {
    if |ps| > 0 {
      var s1 := if ps[0] == null then s else WithoutName(s, ps[0].name);
      UnregisterRemovesNames(s1, ps[1..]);
      forall x, k | x in UnregisterEach(s, ps) && 0 <= k < |ps| && ps[k] != null
        ensures x.name != ps[k].name
      {
        if k > 0 {
          assert ps[1..][k - 1] == ps[k];
        }
      }
    }
  }

  /** A dependency chain: each entry lists the next as a dependency. */
  ghost predicate IsPath(p: seq<SystemRef>, deps: map<SystemRef, seq<SystemRef>>) {
    forall k :: 0 <= k < |p| - 1 ==> p[k] in deps && p[k + 1] in deps[p[k]]
  }

  function Position(order: seq<SystemRef>, x: SystemRef): (r: nat)
    requires x in order
    ensures r < |order| && order[r] == x
    ensures forall j :: 0 <= j < r ==> order[j] != x
  {
    if order[0] == x then 0 else 1 + Position(order[1..], x)
  }

  /** In a sorted list every system comes after all its transitive
      dependencies, and those are in the list too. */
  lemma {:induction false} TransitiveDepsBefore(order: seq<SystemRef>, deps: map<SystemRef, seq<SystemRef>>, p: seq<SystemRef>)
    requires NoDuplicates(order) && DepsBefore(order, deps)
    requires |p| >= 2 && IsPath(p, deps) && p[0] in order
    ensures p[|p| - 1] in order && Position(order, p[|p| - 1]) < Position(order, p[0])
    decreases |p|
  {
    var i := Position(order, p[0]);
    assert p[1] in deps[order[i]];
    var j :| 0 <= j < i && order[j] == p[1];
    assert Position(order, p[1]) == j;
    if |p| > 2 {
      var q := p[1..];
      assert IsPath(q, deps) by {
        forall k | 0 <= k < |q| - 1 ensures q[k] in deps && q[k + 1] in deps[q[k]] {
          assert q[k] == p[k + 1] && q[k + 1] == p[k + 2];
        }
      }
      TransitiveDepsBefore(order, deps, q);
      assert q[|q| - 1] == p[|p| - 1];
    }
  }

  /** Hence a successful sort rules out every dependency cycle through the
      sorted systems. */
  lemma NoCycleThroughSorted(order: seq<SystemRef>, deps: map<SystemRef, seq<SystemRef>>, p: seq<SystemRef>)
    requires NoDuplicates(order) && DepsBefore(order, deps)
    requires |p| >= 2 && IsPath(p, deps) && p[0] in order
    ensures p[|p| - 1] != p[0]
  {
    TransitiveDepsBefore(order, deps, p);
  }

  class Resolver {
    /** m_ppSystems, in registration (later: sorted) order. */
    var systems: seq<SystemRef>
    /** m_ppSystemsDependencies. */
    var deps: map<SystemRef, seq<SystemRef>>

    constructor ()
      ensures systems == [] && deps == map[]
    {
      systems := [];
      deps := map[];
    }

    /** Every node the sort can reach. */
    function Universe(): set<SystemRef>
      reads this
    {
      (set s | s in systems) + DepValues(deps)
    }

    /** What holds between DFS calls: `sorted` holds exactly the finished
      nodes (visited, off the stack), each once, after its dependencies. */
    predicate SortState(visited: set<SystemRef>, stack: set<SystemRef>, sorted: seq<SystemRef>)
      reads this
    {
      && NoDuplicates(sorted)
      && (forall x :: x in sorted ==> x in visited && x !in stack)
      && (forall x :: x in visited && x !in stack ==> x in sorted)
      && stack <= visited <= Universe()
      && DepsBefore(sorted, deps)
    }

    method Register(p: SystemRef?)
      modifies this
      ensures systems == RegisterOne(old(systems), p) && deps == old(deps)
    {
      if p == null {
        return;
      }
      var i := 0;
      while i < |systems|
        invariant 0 <= i <= |systems|
        invariant forall k :: 0 <= k < i ==> systems[k].name != p.name
      {
        if p.name == systems[i].name {
          return;
        }
        i := i + 1;
      }
      systems := systems + [p];
    }

    /** The variadic Register. */
    method RegisterAll(ps: seq<SystemRef?>)
      modifies this
      ensures systems == RegisterEach(old(systems), ps) && deps == old(deps)
    {
      var i := 0;
      while i < |ps|
        invariant 0 <= i <= |ps|
        invariant RegisterEach(old(systems), ps) == RegisterEach(systems, ps[i..])
        invariant deps == old(deps)
      {
        assert ps[i..][1..] == ps[i + 1..];
        Register(ps[i]);
        i := i + 1;
      }
    }

    method Unregister(p: SystemRef?)
      modifies this
      ensures systems == (if p == null then old(systems) else WithoutName(old(systems), p.name))
      ensures deps == old(deps)
    {
      if p == null {
        return;
      }
      systems := WithoutName(systems, p.name);
    }

    /** The variadic Unregister. */
    method UnregisterAll(ps: seq<SystemRef?>)
      modifies this
      ensures systems == UnregisterEach(old(systems), ps) && deps == old(deps)
    {
      var i := 0;
      while i < |ps|
        invariant 0 <= i <= |ps|
        invariant UnregisterEach(old(systems), ps) == UnregisterEach(systems, ps[i..])
        invariant deps == old(deps)
      {
        assert ps[i..][1..] == ps[i + 1..];
        Unregister(ps[i]);
        i := i + 1;
      }
    }

    /** AddDependency: append the arguments, in order and duplicates kept,
      to the list of `p` (created empty on first use). */
    method AddDependency(p: SystemRef, args: seq<SystemRef>)
      modifies this
      ensures |args| > 0 ==> deps == old(deps)[p := (if p in old(deps) then old(deps)[p] else []) + args]
      ensures |args| == 0 ==> deps == old(deps)
      ensures systems == old(systems)
    {
      ghost var initial := if p in deps then deps[p] else [];
      var i := 0;
      while i < |args|
        invariant 0 <= i <= |args|
        invariant i == 0 ==> deps == old(deps)
        invariant i > 0 ==> deps == old(deps)[p := initial + args[..i]]
        invariant systems == old(systems)
      {
        var current := if p in deps then deps[p] else [];
        assert current == initial + args[..i];
        assert args[..i + 1] == args[..i] + [args[i]];
        assert initial + args[..i + 1] == current + [args[i]];
        deps := deps[p := current + [args[i]]];
        i := i + 1;
      }
      assert args[..|args|] == args;
    }

    method Clean()
      modifies this
      ensures systems == [] && deps == map[]
    {
      deps := map[];
      systems := [];
    }

    /** DFS: a node on the recursion stack is a back-edge and throws; a
      visited node is skipped; otherwise its dependencies are visited in
      list order and the node is appended after them. The sets and the list
      are passed in and handed back (on success the stack comes back as it
      went in). */
    method Visit(node: SystemRef, visited: set<SystemRef>, stack: set<SystemRef>, sorted: seq<SystemRef>)
      returns (r: Result<bool, ResolverError>, visited': set<SystemRef>, sorted': seq<SystemRef>)
      requires node in Universe()
      requires SortState(visited, stack, sorted)
      ensures r.Err? ==> r.error == CycleDetected(CycleMessage)
      ensures r.Ok? ==> SortState(visited', stack, sorted') && node in sorted'
      ensures r.Ok? ==> visited <= visited' && sorted <= sorted'
      ensures node in stack ==> r.Err?
      decreases |Universe() - visited|
    {
      if node in stack {
        return Err(CycleDetected(CycleMessage)), visited, sorted;
      }
      if node in visited {
        return Ok(true), visited, sorted;
      }
      var v := visited + {node};
      var st := stack + {node};
      var out := sorted;
      EnterNode(node, visited, stack, sorted);
      if node in deps {
        var ds := deps[node];
        var k := 0;
        while k < |ds|
          invariant 0 <= k <= |ds|
          invariant SortState(v, st, out)
          invariant visited + {node} <= v && sorted <= out
          invariant forall m :: 0 <= m < k ==> ds[m] in out
        {
          VisitShrinks(node, ds[k], visited, v);
          var res, v2, out2 := Visit(ds[k], v, st, out);
          if res.Err? {
            return res, v2, out2;
          }
          DepsLoopStep(node, ds, k, visited, sorted, v, out, v2, out2);
          v, out := v2, out2;
          k := k + 1;
        }
      }
      FinishNode(node, v, stack, out);
      return Ok(true), v, out + [node];
    }

    /** After the k-th dependency's visit, the first k + 1 dependencies are
      finished and the sets and list have only grown. */
    lemma DepsLoopStep(node: SystemRef, ds: seq<SystemRef>, k: nat, visited: set<SystemRef>, sorted: seq<SystemRef>,
                       v: set<SystemRef>, out: seq<SystemRef>, v2: set<SystemRef>, out2: seq<SystemRef>)
      requires k < |ds|
      requires forall m :: 0 <= m < k ==> ds[m] in out
      requires visited + {node} <= v <= v2 && sorted <= out <= out2
      requires ds[k] in out2
      ensures forall m :: 0 <= m < k + 1 ==> ds[m] in out2
      ensures visited + {node} <= v2 && sorted <= out2
    {
      forall m | 0 <= m < k ensures ds[m] in out2 {
        var j :| 0 <= j < |out| && out[j] == ds[m];
        assert out2[j] == ds[m];
      }
    }

    /** Entering an unvisited node puts it on the stack and in the visited set. */
    lemma EnterNode(node: SystemRef, visited: set<SystemRef>, stack: set<SystemRef>, sorted: seq<SystemRef>)
      requires node in Universe() && node !in visited
      requires SortState(visited, stack, sorted)
      ensures SortState(visited + {node}, stack + {node}, sorted)
    {
    }

    /** A dependency of the node being visited is in the universe, and the
      unvisited part of the universe has shrunk since the node was entered. */
    lemma VisitShrinks(node: SystemRef, dep: SystemRef, visited: set<SystemRef>, v: set<SystemRef>)
      requires node in deps && dep in deps[node]
      requires node in Universe() && node !in visited
      requires visited + {node} <= v
      ensures dep in Universe()
      ensures |Universe() - v| < |Universe() - visited|
    {
      assert dep in DepValues(deps);
      assert node in Universe() - visited;
      ProperSubsetSmaller(Universe() - v, Universe() - visited);
    }

    /** Leaving a node whose dependencies are all finished appends it. */
    lemma FinishNode(node: SystemRef, v: set<SystemRef>, stack: set<SystemRef>, out: seq<SystemRef>)
      requires node !in stack
      requires SortState(v, stack + {node}, out)
      requires node in v
      requires node in deps ==> forall m :: 0 <= m < |deps[node]| ==> deps[node][m] in out
      ensures SortState(v, stack, out + [node])
    {
      var out' := out + [node];
      assert node !in out;
      forall i, d | 0 <= i < |out'| && out'[i] in deps && d in deps[out'[i]]
        ensures exists j :: 0 <= j < i && out'[j] == d
      {
        if i < |out| {
          var j :| 0 <= j < i && out[j] == d;
          assert out'[j] == d;
        } else {
          var m :| 0 <= m < |deps[node]| && deps[node][m] == d;
          var j :| 0 <= j < |out| && out[j] == d;
          assert out'[j] == d;
        }
      }
    }

    /** SortTopologically: visit the registered systems in order, skipping
      visited ones, and replace the list by the post-order result. A cycle
      propagates the exception and leaves the list as it was. */
    method SortTopologically() returns (r: Result<bool, ResolverError>)
      modifies this
      ensures deps == old(deps)
      ensures r.Err? ==> systems == old(systems) && r.error == CycleDetected(CycleMessage)
      ensures r.Ok? ==> r.value && SortedOrder(old(systems), systems, deps)
    {
      var visited: set<SystemRef> := {};
      var sorted: seq<SystemRef> := [];
      var i := 0;
      while i < |systems|
        invariant 0 <= i <= |systems|
        invariant systems == old(systems) && deps == old(deps)
        invariant SortState(visited, {}, sorted)
        invariant forall m :: 0 <= m < i ==> systems[m] in sorted
      {
        if systems[i] !in visited {
          var res, v2, s2 := Visit(systems[i], visited, {}, sorted);
          if res.Err? {
            return res;
          }
          visited, sorted := v2, s2;
          // the `sorted.empty()` cycle test after each root cannot fire
          assert |sorted| > 0;
        }
        i := i + 1;
      }
      systems := sorted;
      return Ok(true);
    }

    /** InitializeSystems: sort (a cycle's exception propagates), then call
      OnInit in the new order, stopping at the first failure. `initialized`
      lists the systems whose OnInit ran. */
    method InitializeSystems() returns (r: Result<bool, ResolverError>, initialized: seq<SystemRef>)
      modifies this
      ensures deps == old(deps)
      ensures r.Err? ==> systems == old(systems) && initialized == [] && r.error == CycleDetected(CycleMessage)
      ensures r.Ok? ==> SortedOrder(old(systems), systems, deps)
      ensures r.Ok? ==> initialized == InitCalls(systems)
      ensures r.Ok? ==> (r.value <==> forall x :: x in systems ==> x.initSucceeds)
    {
      var sorted := SortTopologically();
      if sorted.Err? {
        return Err(sorted.error), [];
      }
      var ok;
      ok, initialized := RunInit();
      return Ok(ok), initialized;
    }

    /** The OnInit loop of InitializeSystems over the current list. */
    method RunInit() returns (ok: bool, initialized: seq<SystemRef>)
      ensures initialized == InitCalls(systems)
      ensures ok <==> forall x :: x in systems ==> x.initSucceeds
    {
      initialized := [];
      var i := 0;
      while i < |systems|
        invariant 0 <= i <= |systems|
        invariant initialized == systems[..i]
        invariant forall k :: 0 <= k < i ==> systems[k].initSucceeds
      {
        initialized := initialized + [systems[i]];
        assert systems[..i + 1] == systems[..i] + [systems[i]];
        if !systems[i].initSucceeds {
          InitCallsStopAt(systems, i);
          return false, initialized;
        }
        i := i + 1;
      }
      assert systems[..i] == systems;
      return true, initialized;
    }

    /** UpdateStartSystems / UpdateEndSystems / ReleaseSystems: one hook call
      per system, in list order. */
    method RunHook(hook: Hook) returns (calls: seq<Call>)
      ensures |calls| == |systems|
      ensures forall i :: 0 <= i < |systems| ==> calls[i] == Call(hook, systems[i])
    {
      calls := [];
      var i := 0;
      while i < |systems|
        invariant 0 <= i <= |systems|
        invariant |calls| == i
        invariant forall k :: 0 <= k < i ==> calls[k] == Call(hook, systems[k])
      {
        calls := calls + [Call(hook, systems[i])];
        i := i + 1;
      }
    }
  }
}
