/** The circular-import check of `conventions.py`.

    Imports are resolved to known modules by longest dotted prefix; a depth-first search
    over the resolved graph collects one closed walk per distinct vertex set. The search
    is proved sound, complete and terminating. */
module ImportCycles {
  import opened Common

  // ----- Dotted names -----

  /** `name.split(".")`. */
  function Split(name: string): (parts: seq<string>)
    ensures |parts| >= 1
  {
    if name == "" then [""]
    else
      var rest := Split(name[1..]);
      if name[0] == '.' then [""] + rest else [[name[0]] + rest[0]] + rest[1..]
  }

  /** `".".join(parts)`. */
  function Join(parts: seq<string>): string {
    if parts == [] then ""
    else if |parts| == 1 then parts[0]
    else parts[0] + "." + Join(parts[1..])
  }

  /** `p` is `name` itself, or `name` cut just before one of its dots. */
  predicate DottedPrefix(p: string, name: string) {
    p <= name && (|p| == |name| || name[|p|] == '.')
  }

  lemma {:induction false} SplitStep(name: string, i: nat)
    requires name != "" && 1 <= i <= |Split(name)|
    ensures name[0] == '.' && i > 1 ==>
              i - 1 <= |Split(name[1..])| && Join(Split(name)[..i]) == "." + Join(Split(name[1..])[..i - 1])
    ensures name[0] == '.' && i == 1 ==> Join(Split(name)[..i]) == ""
    ensures name[0] != '.' ==>
              i <= |Split(name[1..])| && Join(Split(name)[..i]) == [name[0]] + Join(Split(name[1..])[..i])
  {
    var parts, rest := Split(name), Split(name[1..]);
    if name[0] == '.' {
      assert i > 1 ==> parts[..i][1..] == rest[..i - 1];
    } else {
      assert i > 1 ==> parts[..i][1..] == rest[..i][1..];
    }
  }

  lemma {:induction false} JoinPrefixIsDotted(name: string, i: nat)
    requires 1 <= i <= |Split(name)|
    ensures DottedPrefix(Join(Split(name)[..i]), name)
    ensures i == |Split(name)| ==> Join(Split(name)[..i]) == name
    decreases name
  {
    if name != "" {
      SplitStep(name, i);
      if name[0] != '.' {
        JoinPrefixIsDotted(name[1..], i);
      } else if i > 1 {
        JoinPrefixIsDotted(name[1..], i - 1);
      }
    }
  }

  lemma {:induction false} JoinPrefixesGrow(parts: seq<string>, i: nat)
    requires 1 <= i < |parts|
    ensures |Join(parts[..i])| < |Join(parts[..i + 1])|
    decreases parts
  {
    assert parts[..i + 1][1..] == parts[1..][..i];
    if i > 1 {
      JoinPrefixesGrow(parts[1..], i - 1);
      assert parts[..i][1..] == parts[1..][..i - 1];
    }
  }

  lemma {:induction false} DottedPrefixIsJoin(p: string, name: string) returns (i: nat)
    requires DottedPrefix(p, name)
    ensures 1 <= i <= |Split(name)| && p == Join(Split(name)[..i])
    decreases name
  {
    var parts := Split(name);
    if p == name {
      i := |parts|;
      JoinPrefixIsDotted(name, i);
    } else if p == "" {
      i := 1;
    } else {
      var j := DottedPrefixIsJoin(p[1..], name[1..]);
      i := if name[0] == '.' then j + 1 else j;
      SplitStep(name, i);
    }
  }

  // ----- Resolution -----

  type Adjacency = map<string, seq<string>>

  /** `m` is the longest dotted prefix of `name` that is a known module. */
  ghost predicate LongestKnownPrefix(m: string, name: string, known: set<string>) {
    && m in known
    && DottedPrefix(m, name)
    && forall p :: p in known && DottedPrefix(p, name) ==> |p| <= |m|
  }

  /** The module an import names, and `None` exactly when no dotted prefix is known. */
  ghost function Resolve(name: string, known: set<string>): Option<string> {
    if exists m :: LongestKnownPrefix(m, name, known)
    then var m :| LongestKnownPrefix(m, name, known); Some(m)
    else None
  }

  lemma ResolveIsUnique(name: string, known: set<string>, m: string)
    requires LongestKnownPrefix(m, name, known)
    ensures Resolve(name, known) == Some(m)
  {
    var r := Resolve(name, known);
    assert r.Some? && |r.value| == |m| && r.value == name[..|m|] == m;
  }

  method BestMatch(name: string, adjacency: Adjacency) returns (r: Option<string>)
    ensures r == Resolve(name, adjacency.Keys)
    ensures r.None? <==> forall p | p in adjacency :: !DottedPrefix(p, name)
    ensures r.Some? ==> r.value in adjacency && DottedPrefix(r.value, name)
    ensures r.Some? ==> forall p | p in adjacency && DottedPrefix(p, name) :: |p| <= |r.value|
  {
    var parts := Split(name);
    var i := |parts|;
    while i > 0
      invariant 0 <= i <= |parts|
      invariant forall j | i < j <= |parts| :: Join(parts[..j]) !in adjacency
    {
      var candidate := Join(parts[..i]);
      JoinPrefixIsDotted(name, i);
      if candidate in adjacency {
        forall p | p in adjacency && DottedPrefix(p, name)
          ensures |p| <= |candidate|
        {
          var j := DottedPrefixIsJoin(p, name);
          PrefixLengthsMonotone(parts, j, i);
        }
        ResolveIsUnique(name, adjacency.Keys, candidate);
        return Some(candidate);
      }
      i := i - 1;
    }
    forall p | p in adjacency
      ensures !DottedPrefix(p, name)
    {
      if DottedPrefix(p, name) {
        var j := DottedPrefixIsJoin(p, name);
      }
    }
    r := None;
  }

  lemma {:induction false} PrefixLengthsMonotone(parts: seq<string>, i: nat, j: nat)
    requires 1 <= i <= j <= |parts|
    ensures |Join(parts[..i])| <= |Join(parts[..j])|
    decreases j
  {
    if i < j {
      JoinPrefixesGrow(parts, j - 1);
      PrefixLengthsMonotone(parts, i, j - 1);
    }
  }

  lemma KnownResolvesToItself(name: string, known: set<string>)
    requires name in known
    ensures Resolve(name, known) == Some(name)
  {
    ResolveIsUnique(name, known, name);
  }

  // ----- The resolved import graph -----

  ghost predicate Edge(g: Adjacency, u: string, v: string) {
    u in g && exists i :: 0 <= i < |g[u]| && Resolve(g[u][i], g.Keys) == Some(v)
  }

  ghost predicate Walk(g: Adjacency, w: seq<string>) {
    forall i | 0 <= i < |w| - 1 :: Edge(g, w[i], w[i + 1])
  }

  ghost predicate ClosedWalk(g: Adjacency, w: seq<string>) {
    |w| >= 2 && w[0] == w[|w| - 1] && Walk(g, w)
  }

  ghost predicate Acyclic(g: Adjacency) {
    forall w :: !ClosedWalk(g, w)
  }

  function Elements(s: seq<string>): set<string> {
    set x | x in s
  }

  /** A reported cycle: a closed walk that visits no vertex twice before it closes. */
  ghost predicate SimpleCycle(g: Adjacency, c: seq<string>) {
    ClosedWalk(g, c) && Distinct(c[1..])
  }

  /** Some reported cycle runs through both `u` and `v`. */
  ghost predicate Covered(cycles: seq<seq<string>>, u: string, v: string) {
    exists i :: 0 <= i < |cycles| && u in cycles[i] && v in cycles[i]
  }

  /** The report holds the vertex set of a cycle. */
  ghost predicate Recorded(cycles: seq<seq<string>>, c: seq<string>) {
    exists i :: 0 <= i < |cycles| && Elements(cycles[i]) == Elements(c)
  }

  /** `c` is a simple cycle that the edge from `u` to `v` closes. */
  ghost predicate ClosedBy(g: Adjacency, c: seq<string>, u: string, v: string) {
    SimpleCycle(g, c) && c[|c| - 2] == u && c[|c| - 1] == v
  }

  /** The edge from `u` to `v` was met as a back edge and the vertex set it closes is reported. */
  ghost predicate Reported(g: Adjacency, cycles: seq<seq<string>>, u: string, v: string) {
    exists c :: ClosedBy(g, c, u, v) && Recorded(cycles, c)
  }

  /** What holds of the cycle list at every moment. */
  ghost predicate Sound(g: Adjacency, cycles: seq<seq<string>>) {
    && (forall i | 0 <= i < |cycles| :: SimpleCycle(g, cycles[i]))
    && (forall i, j | 0 <= i < j < |cycles| :: Elements(cycles[i]) != Elements(cycles[j]))
  }

  /** `order` lists finished vertices so that every edge out of one leads to an earlier
      vertex, or is a back edge whose own vertex set is reported. */
  ghost predicate Settled(g: Adjacency, order: seq<string>, cycles: seq<seq<string>>) {
    forall i, v | 0 <= i < |order| && Edge(g, order[i], v) ::
      v in order[..i] || Reported(g, cycles, order[i], v)
  }

  lemma ReportedIsCovered(g: Adjacency, cycles: seq<seq<string>>, u: string, v: string)
    requires Reported(g, cycles, u, v)
    ensures Covered(cycles, u, v)
  {
    var c :| ClosedBy(g, c, u, v) && Recorded(cycles, c);
    RecordedCovers(cycles, c, u, v);
  }

  /** A step of the walk whose two ends lie on one reported cycle. */
  ghost predicate HasCoveredStep(cycles: seq<seq<string>>, w: seq<string>) {
    exists i :: 0 <= i < |w| - 1 && Covered(cycles, w[i], w[i + 1])
  }

  // ----- Completeness, on values -----

  lemma {:induction false} UncoveredWalkSinks(
    g: Adjacency, order: seq<string>, cycles: seq<seq<string>>, w: seq<string>, k: nat, j: nat)
    requires Settled(g, order, cycles) && Walk(g, w) && !HasCoveredStep(cycles, w)
    requires k <= |order| && j < |w| && w[0] in order[..k]
    ensures j < k && w[j] in order[..k - j]
    decreases j
  {
    if j > 0 {
      UncoveredWalkSinks(g, order, cycles, w, k, j - 1);
      var i :| 0 <= i < k - (j - 1) && order[i] == w[j - 1];
      assert Edge(g, w[j - 1], w[j - 1 + 1]);
      if Reported(g, cycles, order[i], w[j]) {
        ReportedIsCovered(g, cycles, w[j - 1], w[j - 1 + 1]);
      }
      assert w[j] in order[..i];
    }
  }

  /** In a settled order covering the walk's start, no closed walk escapes the report. */
  lemma {:induction false} ClosedWalksAreCovered(
    g: Adjacency, order: seq<string>, cycles: seq<seq<string>>, w: seq<string>, k: nat)
    requires Settled(g, order, cycles) && ClosedWalk(g, w)
    requires k <= |order| && w[0] in order[..k]
    ensures HasCoveredStep(cycles, w)
    decreases k
  {
    if !HasCoveredStep(cycles, w) {
      UncoveredWalkSinks(g, order, cycles, w, k, |w| - 1);
      ClosedWalksAreCovered(g, order, cycles, w, k - (|w| - 1));
    }
  }

  lemma RecordedMonotone(cycles: seq<seq<string>>, more: seq<seq<string>>, c: seq<string>)
    requires cycles <= more && Recorded(cycles, c)
    ensures Recorded(more, c)
  {
    var i :| 0 <= i < |cycles| && Elements(cycles[i]) == Elements(c);
    assert more[i] == cycles[i];
  }

  lemma ReportedMonotone(g: Adjacency, cycles: seq<seq<string>>, more: seq<seq<string>>)
    requires cycles <= more
    ensures forall u, v | Reported(g, cycles, u, v) :: Reported(g, more, u, v)
  {
    hide ClosedBy, Recorded;
    forall u, v | Reported(g, cycles, u, v)
      ensures Reported(g, more, u, v)
    {
      var c :| ClosedBy(g, c, u, v) && Recorded(cycles, c);
      RecordedMonotone(cycles, more, c);
    }
  }

  lemma SettledExtends(g: Adjacency, order: seq<string>, cycles: seq<seq<string>>, u: string)
    requires Settled(g, order, cycles)
    requires forall v | Edge(g, u, v) :: v in order || Reported(g, cycles, u, v)
    ensures Settled(g, order + [u], cycles)
  {
    var longer := order + [u];
    forall i, v | 0 <= i < |longer| && Edge(g, longer[i], v)
      ensures v in longer[..i] || Reported(g, cycles, longer[i], v)
    {
      if i < |order| {
        assert longer[..i] == order[..i];
      } else {
        assert longer[..i] == order;
      }
    }
  }

  lemma SettledMonotone(g: Adjacency, order: seq<string>, cycles: seq<seq<string>>, more: seq<seq<string>>)
    requires Settled(g, order, cycles) && cycles <= more
    ensures Settled(g, order, more)
  {
    hide Reported;
    ReportedMonotone(g, cycles, more);
  }

  /** The stack from `path[start]` up, closed by the edge back to it, is a simple cycle. */
  lemma BackEdgeCloses(g: Adjacency, path: seq<string>, start: nat)
    requires Walk(g, path) && Distinct(path) && start < |path|
    requires Edge(g, path[|path| - 1], path[start])
    ensures ClosedBy(g, path[start..] + [path[start]], path[|path| - 1], path[start])
  {
    var c := path[start..] + [path[start]];
    forall i | 0 <= i < |c| - 1
      ensures Edge(g, c[i], c[i + 1])
    {
      if i + 1 < |c| - 1 {
        assert Edge(g, path[start + i], path[start + i + 1]);
      }
    }
  }

  // ----- The search invariant, on values -----

  /** The search invariant: `path` is the stack of open vertices, a simple walk; every other
      visited vertex is in `finished`; the report is sound and holds the vertex set of
      every back edge out of a finished vertex. */
  ghost predicate Inv(g: Adjacency, visited: set<string>, path: seq<string>, finished: seq<string>,
                      cycles: seq<seq<string>>)
  {
    && visited <= g.Keys
    && Distinct(path) && Walk(g, path)
    && visited == Elements(path) + Elements(finished)
    && Elements(path) !! Elements(finished)
    && Sound(g, cycles)
    && Settled(g, finished, cycles)
  }

  lemma EnterKeeps(g: Adjacency, visited: set<string>, path: seq<string>, finished: seq<string>,
                   cycles: seq<seq<string>>, node: string)
    requires Inv(g, visited, path, finished, cycles)
    requires node in g && node !in visited && (path != [] ==> Edge(g, path[|path| - 1], node))
    ensures Inv(g, visited + {node}, path + [node], finished, cycles)
    ensures Elements(path + [node]) == Elements(path) + {node}
  {
    var longer := path + [node];
    forall i | 0 <= i < |longer| - 1
      ensures Edge(g, longer[i], longer[i + 1])
    {
      if i < |path| - 1 {
        assert Edge(g, path[i], path[i + 1]);
      }
    }
    assert forall x | x in path :: x in Elements(path);
  }

  lemma LeaveKeeps(g: Adjacency, visited: set<string>, below: seq<string>, finished: seq<string>,
                   cycles: seq<seq<string>>, node: string)
    requires Inv(g, visited, below + [node], finished, cycles)
    requires node in g && EdgesSettled(g, g[node], node, finished, cycles)
    ensures Inv(g, visited, below, finished + [node], cycles)
    ensures Elements(below + [node]) - {node} == Elements(below)
  {
    var path := below + [node];
    SettledExtends(g, finished, cycles, node);
    forall i | 0 <= i < |below| - 1
      ensures Edge(g, below[i], below[i + 1])
    {
      assert Edge(g, path[i], path[i + 1]);
    }
    forall x | x in below
      ensures x != node && x in Elements(path)
    {
      var i :| 0 <= i < |below| && below[i] == x;
      assert path[i] != path[|below|];
    }
    assert node in Elements(path);
    assert Elements(finished + [node]) == Elements(finished) + {node};
    assert Elements(path) == Elements(below) + {node};
    assert Distinct(below) by {
      forall i, j | 0 <= i < j < |below|
        ensures below[i] != below[j]
      {
        assert path[i] != path[j];
      }
    }
  }

  lemma CloseKeeps(g: Adjacency, visited: set<string>, path: seq<string>, finished: seq<string>,
                   cycles: seq<seq<string>>, cycle: seq<string>)
    requires Inv(g, visited, path, finished, cycles)
    requires SimpleCycle(g, cycle)
    ensures var cycles' := if Recorded(cycles, cycle) then cycles else cycles + [cycle];
            && Inv(g, visited, path, finished, cycles')
            && Recorded(cycles', cycle)
  {
    if !Recorded(cycles, cycle) {
      var more := cycles + [cycle];
      SettledMonotone(g, finished, cycles, more);
      assert more[|cycles|] == cycle;
      forall c | Recorded(cycles, c)
        ensures Recorded(more, c)
      {
        var i :| 0 <= i < |cycles| && Elements(cycles[i]) == Elements(c);
        assert more[i] == cycles[i];
      }
    }
  }

  lemma StackElements(path: seq<string>, x: string)
    requires x in Elements(path)
    ensures x in path
  {
  }

  lemma RecordedCovers(cycles: seq<seq<string>>, cycle: seq<string>, u: string, v: string)
    requires Recorded(cycles, cycle) && u in cycle && v in cycle
    ensures Covered(cycles, u, v)
  {
    var i :| 0 <= i < |cycles| && Elements(cycles[i]) == Elements(cycle);
    assert u in Elements(cycle) && v in Elements(cycle);
  }

  lemma StackIsSimpleWalk(
    g: Adjacency, visited: set<string>, path: seq<string>, finished: seq<string>,
    cycles: seq<seq<string>>)
    requires Inv(g, visited, path, finished, cycles)
    ensures Walk(g, path) && Distinct(path)
  {
  }

  lemma VisitedOffStackIsFinished(
    g: Adjacency, visited: set<string>, path: seq<string>, finished: seq<string>,
    cycles: seq<seq<string>>, v: string)
    requires Inv(g, visited, path, finished, cycles)
    requires v in visited && v !in Elements(path)
    ensures v in finished
  {
  }

  /** Every resolved import of `node` so far is finished, or a reported back edge. */
  ghost predicate EdgesSettled(g: Adjacency, imports: seq<string>, node: string,
                               finished: seq<string>, cycles: seq<seq<string>>)
  {
    forall i, v | 0 <= i < |imports| && Resolve(imports[i], g.Keys) == Some(v) ::
      v in finished || Reported(g, cycles, node, v)
  }

  lemma EdgesSettledStep(
    g: Adjacency, imports: seq<string>, k: nat, node: string,
    finished: seq<string>, cycles: seq<seq<string>>, finished': seq<string>, cycles': seq<seq<string>>)
    requires k < |imports| && EdgesSettled(g, imports[..k], node, finished, cycles)
    requires finished <= finished' && cycles <= cycles'
    requires forall v | Resolve(imports[k], g.Keys) == Some(v) :: v in finished' || Reported(g, cycles', node, v)
    ensures EdgesSettled(g, imports[..k + 1], node, finished', cycles')
  {
    hide Reported;
    ReportedMonotone(g, cycles, cycles');
    forall i, v | 0 <= i < k + 1 && Resolve(imports[i], g.Keys) == Some(v)
      ensures v in finished' || Reported(g, cycles', node, v)
    {
      if i < k {
        assert imports[..k][i] == imports[i];
      }
    }
  }

  lemma NothingSettledYet(g: Adjacency, imports: seq<string>, node: string,
                          finished: seq<string>, cycles: seq<seq<string>>)
    ensures EdgesSettled(g, imports[..0], node, finished, cycles)
  {
  }

  lemma EdgeAt(g: Adjacency, u: string, i: nat, v: string)
    requires u in g && i < |g[u]| && Resolve(g[u][i], g.Keys) == Some(v)
    ensures Edge(g, u, v)
  {
  }

  // ----- The depth-first search -----

  method IndexOf(path: seq<string>, x: string) returns (k: nat)
    requires x in path
    ensures k < |path| && path[k] == x
  {
    k := 0;
    while path[k] != x
      invariant k < |path| && x in path[k..]
      decreases |path| - k
    {
      k := k + 1;
    }
  }

  method AlreadyRecorded(cycles: seq<seq<string>>, cycle: seq<string>) returns (b: bool)
    ensures b <==> Recorded(cycles, cycle)
  {
    for i := 0 to |cycles|
      invariant forall j | 0 <= j < i :: Elements(cycles[j]) != Elements(cycle)
    {
      if Elements(cycles[i]) == Elements(cycle) {
        return true;
      }
    }
    return false;
  }

  /** The import itself when it is a known module, else its longest known prefix. */
  method ResolveImport(name: string, adjacency: Adjacency) returns (r: Option<string>)
    ensures r == Resolve(name, adjacency.Keys)
    ensures r.Some? ==> r.value in adjacency
  {
    if name in adjacency {
      KnownResolvesToItself(name, adjacency.Keys);
      return Some(name);
    }
    r := BestMatch(name, adjacency);
  }

  class CycleSearch {
    const adjacency: Adjacency
    var visited: set<string>
    var inStack: set<string>
    var path: seq<string>
    var cycles: seq<seq<string>>
    ghost var finished: seq<string>          // vertices in the order the search left them

    constructor (adjacency: Adjacency)
      ensures Valid() && this.adjacency == adjacency
      ensures visited == {} && path == [] && cycles == [] && finished == []
    {
      this.adjacency := adjacency;
      visited, inStack, path, cycles, finished := {}, {}, [], [], [];
    }

    ghost predicate Valid()
      reads this
    {
      inStack == Elements(path) && Inv(adjacency, visited, path, finished, cycles)
    }

    /** What every call leaves of the earlier state. */
    twostate predicate Grows()
      reads this
    {
      && old(visited) <= visited
      && path == old(path) && inStack == old(inStack)
      && old(cycles) <= cycles && old(finished) <= finished
    }

    method Dfs(node: string)
      requires Valid() && node in adjacency && node !in visited
      requires path != [] ==> Edge(adjacency, path[|path| - 1], node)
      modifies this
      ensures Valid() && Grows() && node in finished
      decreases adjacency.Keys - visited
    {
      hide Inv, Reported, Resolve, Edge, EdgesSettled, Elements;
      EnterKeeps(adjacency, visited, path, finished, cycles, node);
      visited := visited + {node};
      inStack := inStack + {node};
      path := path + [node];
      var imports := adjacency[node];
      NothingSettledYet(adjacency, imports, node, finished, cycles);
      for k := 0 to |imports|
        invariant Valid() && path == old(path) + [node]
        invariant old(visited) + {node} <= visited
        invariant old(cycles) <= cycles && old(finished) <= finished
        invariant EdgesSettled(adjacency, imports[..k], node, finished, cycles)
      {
        ghost var wasFinished, wasCycles := finished, cycles;
        var resolved := ResolveImport(imports[k], adjacency);
        if resolved.Some? {
          var neighbor := resolved.value;
          EdgeAt(adjacency, node, k, neighbor);
          if neighbor !in visited {
            Dfs(neighbor);
          } else if neighbor in inStack {
            var _ := CloseCycle(neighbor);
          } else {
            VisitedOffStackIsFinished(adjacency, visited, path, finished, cycles, neighbor);
          }
        }
        EdgesSettledStep(adjacency, imports, k, node, wasFinished, wasCycles, finished, cycles);
      }
      assert imports[..|imports|] == imports;
      LeaveKeeps(adjacency, visited, old(path), finished, cycles, node);
      path := path[..|path| - 1];
      assert path == old(path);
      inStack := inStack - {node};
      finished := finished + [node];
    }

    /** The back-edge branch: record the closed walk unless its vertex set is known. */
    method CloseCycle(neighbor: string) returns (start: nat)
      requires Valid() && path != [] && neighbor in inStack
      requires Edge(adjacency, path[|path| - 1], neighbor)
      modifies this
      ensures Valid() && Grows() && visited == old(visited) && finished == old(finished)
      ensures Reported(adjacency, cycles, path[|path| - 1], neighbor)
      ensures start < |path| && path[start] == neighbor && Recorded(cycles, path[start..] + [neighbor])
      ensures cycles == old(cycles) || cycles == old(cycles) + [path[start..] + [neighbor]]
    {
      hide Inv, Edge, Walk, Distinct, SimpleCycle, Recorded, Elements;
      StackElements(path, neighbor);
      start := IndexOf(path, neighbor);
      var cycle := path[start..] + [neighbor];
      StackIsSimpleWalk(adjacency, visited, path, finished, cycles);
      BackEdgeCloses(adjacency, path, start);
      var known := AlreadyRecorded(cycles, cycle);
      CloseKeeps(adjacency, visited, path, finished, cycles, cycle);
      if !known {
        cycles := cycles + [cycle];
      }
      assert ClosedBy(adjacency, cycle, path[|path| - 1], neighbor) && Recorded(cycles, cycle);
    }
  }

  /** `_check_circular_imports`: `files` lists the modules found, each with its imports, in
      scan order; a module met twice keeps its first position and its last import list. */
  method CheckCircularImports(files: seq<(string, seq<string>)>)
    returns (adjacency: Adjacency, cycles: seq<seq<string>>, ghost finished: seq<string>)
    ensures adjacency == Graph(files)
    // every scanned module is a vertex, with the imports of its last occurrence
    ensures forall m :: m in adjacency <==> exists i | 0 <= i < |files| :: files[i].0 == m
    ensures forall i | 0 <= i < |files| && (forall j | i < j < |files| :: files[j].0 != files[i].0) ::
              adjacency[files[i].0] == files[i].1
    // every report is a real cycle, and no vertex set is reported twice
    ensures Sound(adjacency, cycles)
    // in the order the search left the modules, an edge that does not lead back to an earlier
    // one is a back edge, and the vertex set it closes is reported
    ensures Elements(finished) == adjacency.Keys && Settled(adjacency, finished, cycles)
    // no import cycle is missed: each one takes a step inside some reported cycle
    ensures forall w | ClosedWalk(adjacency, w) :: HasCoveredStep(cycles, w)
    ensures cycles == [] <==> Acyclic(adjacency)
  {
    adjacency := map[];
    var order: seq<string> := [];
    for i := 0 to |files|
      invariant adjacency == Graph(files[..i])
      invariant Elements(order) == adjacency.Keys
    {
      assert files[..i + 1][..i] == files[..i];
      if files[i].0 !in adjacency {
        order := order + [files[i].0];
        assert Elements(order) == Elements(order[..|order| - 1]) + {files[i].0};
      }
      adjacency := adjacency[files[i].0 := files[i].1];
    }
    assert files[..|files|] == files;
    GraphHolds(files);

    var search := new CycleSearch(adjacency);
    for i := 0 to |order|
      invariant search.Valid() && search.path == [] && search.adjacency == adjacency
      invariant fresh(search)
      invariant forall x | x in order[..i] :: x in search.visited
    {
      if order[i] !in search.visited {
        search.Dfs(order[i]);
      }
    }
    cycles, finished := search.cycles, search.finished;
    ReportIsComplete(adjacency, search.visited, search.finished, cycles);
  }

  /** The dictionary the scan builds: later entries for a module replace earlier ones. */
  function Graph(files: seq<(string, seq<string>)>): Adjacency {
    if files == [] then map[]
    else var (m, imports) := files[|files| - 1]; Graph(files[..|files| - 1])[m := imports]
  }

  lemma {:induction false} GraphKeys(files: seq<(string, seq<string>)>, m: string)
    ensures m in Graph(files) <==> exists i | 0 <= i < |files| :: files[i].0 == m
    decreases files
  {
    if files != [] {
      var n := |files| - 1;
      GraphKeys(files[..n], m);
      if i :| 0 <= i < n && files[i].0 == m {
        assert files[..n][i].0 == m;
      }
    }
  }

  lemma {:induction false} GraphAt(files: seq<(string, seq<string>)>, i: nat)
    requires i < |files| && forall j | i < j < |files| :: files[j].0 != files[i].0
    ensures files[i].0 in Graph(files) && Graph(files)[files[i].0] == files[i].1
    decreases files
  {
    var n := |files| - 1;
    if i < n {
      var rest := files[..n];
      assert forall j | 0 <= j < n :: rest[j] == files[j];
      GraphAt(rest, i);
    }
  }

  /** Its keys are the modules scanned, each with the imports of its last occurrence. */
  lemma GraphHolds(files: seq<(string, seq<string>)>)
    ensures forall m :: m in Graph(files) <==> exists i | 0 <= i < |files| :: files[i].0 == m
    ensures forall i | 0 <= i < |files| && (forall j | i < j < |files| :: files[j].0 != files[i].0) ::
              files[i].0 in Graph(files) && Graph(files)[files[i].0] == files[i].1
  {
    hide Graph;
    forall m
      ensures m in Graph(files) <==> exists i | 0 <= i < |files| :: files[i].0 == m
    {
      GraphKeys(files, m);
    }
    forall i | 0 <= i < |files| && (forall j | i < j < |files| :: files[j].0 != files[i].0)
      ensures files[i].0 in Graph(files) && Graph(files)[files[i].0] == files[i].1
    {
      GraphAt(files, i);
    }
  }

  lemma ReportIsComplete(g: Adjacency, visited: set<string>, finished: seq<string>,
                         cycles: seq<seq<string>>)
    requires Inv(g, visited, [], finished, cycles)
    requires visited == g.Keys
    ensures Elements(finished) == g.Keys && Settled(g, finished, cycles)
    ensures forall w | ClosedWalk(g, w) :: HasCoveredStep(cycles, w)
    ensures cycles == [] <==> Acyclic(g)
  {
    forall w | ClosedWalk(g, w)
      ensures HasCoveredStep(cycles, w)
    {
      assert Edge(g, w[0], w[0 + 1]);
      assert w[0] in Elements(finished);
      assert finished[..|finished|] == finished;
      ClosedWalksAreCovered(g, finished, cycles, w, |finished|);
    }
    if cycles != [] {
      assert ClosedWalk(g, cycles[0]);
    }
  }
}
