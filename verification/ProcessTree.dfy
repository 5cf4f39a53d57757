/** The resident memory of a process and all its descendants, from one reading of the process table. */
module ProcessTree {
  import opened Common

  type Pid = nat

  /** The readable lines of one status file. */
  datatype Status = Status(parent: Option<Pid>, rss: Option<nat>)

  type Table = map<Pid, Status>

  ghost predicate ParentOf(t: Table, child: Pid, parent: Pid) {
    child in t && t[child].parent == Some(parent)
  }

  /** A chain of parents, each but the last in the table. */
  ghost predicate Chain(t: Table, c: seq<Pid>) {
    c != [] && forall i, j :: 0 <= i < j < |c| && j == i + 1 ==> ParentOf(t, c[i], c[j])
  }

  /** The chain of parents of p reaches the root. */
  ghost predicate Descends(t: Table, root: Pid, p: Pid) {
    exists c :: Chain(t, c) && c[0] == p && c[|c| - 1] == root
  }

  lemma ChildDescends(t: Table, root: Pid, parent: Pid, child: Pid)
    requires Descends(t, root, parent) && ParentOf(t, child, parent)
    ensures Descends(t, root, child)
  {
    var c :| Chain(t, c) && c[0] == parent && c[|c| - 1] == root;
    var longer := [child] + c;
    assert Chain(t, longer) && longer[0] == child && longer[|longer| - 1] == root;
  }

  /** Nothing more can be selected. */
  ghost predicate Closed(t: Table, selected: set<Pid>) {
    forall p, q :: ParentOf(t, p, q) && q in selected ==> p in selected
  }

  lemma {:induction false} ClosedHoldsChain(t: Table, selected: set<Pid>, c: seq<Pid>, k: nat)
    requires Closed(t, selected) && Chain(t, c) && c[|c| - 1] in selected && k < |c|
    ensures c[k] in selected
    decreases |c| - k
  {
    if k < |c| - 1 {
      ClosedHoldsChain(t, selected, c, k + 1);
      assert ParentOf(t, c[k], c[k + 1]);
    }
  }

  /** A closed set around the root that selects only descendants selects exactly the descendants. */
  lemma ClosedIsDescendants(t: Table, root: Pid, selected: set<Pid>)
    requires Closed(t, selected) && root in selected
    requires forall p :: p in selected ==> Descends(t, root, p)
    ensures forall p :: p in selected <==> Descends(t, root, p)
  {
    forall p | Descends(t, root, p)
      ensures p in selected
    {
      var c :| Chain(t, c) && c[0] == p && c[|c| - 1] == root;
      ClosedHoldsChain(t, selected, c, 0);
    }
  }

  function Memory(t: Table, p: Pid): nat {
    if p in t && t[p].rss.Some? then t[p].rss.value else 0
  }

  /** The sum over a set, in no particular order. */
  ghost function Total(t: Table, s: set<Pid>): nat {
    if s == {} then 0
    else
      var p :| p in s;
      Memory(t, p) + Total(t, s - {p})
  }

  /** Any member may be taken out first. */
  lemma {:induction false} TotalTakesOut(t: Table, s: set<Pid>, q: Pid)
    requires q in s
    ensures Total(t, s) == Memory(t, q) + Total(t, s - {q})
  {
    var p :| p in s && Total(t, s) == Memory(t, p) + Total(t, s - {p});
    if p != q {
      TotalTakesOut(t, s - {p}, q);
      TotalTakesOut(t, s - {q}, p);
      assert s - {p} - {q} == s - {q} - {p};
    }
  }

  /** One pass over the table, in any order. */
  method Pass(t: Table, root: Pid, before: set<Pid>) returns (selected: set<Pid>, changed: bool)
    requires forall p :: p in before ==> Descends(t, root, p)
    ensures before <= selected <= before + t.Keys
    ensures forall p :: p in selected ==> Descends(t, root, p)
    ensures changed <==> selected != before
    ensures !changed ==> Closed(t, selected)
  {
    selected, changed := before, false;
    var todo := t.Keys;
    while todo != {}
      invariant todo <= t.Keys && before <= selected <= before + t.Keys
      invariant forall p :: p in selected ==> Descends(t, root, p)
      invariant changed <==> selected != before
      invariant !changed ==> forall p, q :: p !in todo && ParentOf(t, p, q) && q in selected ==> p in selected
      decreases |todo|
    {
      var pid :| pid in todo;
      todo := todo - {pid};
      var parent := t[pid].parent;
      if parent.Some? && parent.value in selected && pid !in selected {
        ChildDescends(t, root, parent.value, pid);
        selected, changed := selected + {pid}, true;
      }
    }
  }

  /** Everything that is counted: the root and its descendants, as far as they are in the table. */
  ghost predicate Counted(t: Table, root: Pid, s: set<Pid>) {
    forall p :: p in s <==> p in t && Descends(t, root, p)
  }

  /** The passes are repeated until one changes nothing. */
  method Select(t: Table, root: Pid) returns (selected: set<Pid>)
    ensures forall p :: p in selected <==> Descends(t, root, p)
  {
    selected := {root};
    assert Chain(t, [root]);
    var changed := true;
    while changed
      invariant root in selected && selected <= {root} + t.Keys
      invariant forall p :: p in selected ==> Descends(t, root, p)
      invariant !changed ==> Closed(t, selected)
      decreases changed, |{root} + t.Keys - selected|
    {
      ghost var before := selected;
      selected, changed := Pass(t, root, selected);
      if changed {
        ghost var p :| p in selected && p !in before;
        assert {root} + t.Keys - selected < {root} + t.Keys - before;
        Smaller({root} + t.Keys - selected, {root} + t.Keys - before);
      }
    }
    ClosedIsDescendants(t, root, selected);
  }

  lemma Smaller(a: set<Pid>, b: set<Pid>)
    requires a < b
    ensures |a| < |b|
  {
    var x :| x in b && x !in a;
    assert a <= b - {x};
    var rest := (b - {x}) - a;
    assert b - {x} == a + rest;
  }

  /** process_tree_rss: each counted process adds its memory once, unreadable memory counts as nothing. */
  method ProcessTreeRss(rootPid: Option<Pid>, t: Table) returns (rss: Option<nat>, count: nat, ghost counted: set<Pid>)
    ensures rootPid.None? ==> rss == None && count == 0
    ensures rootPid.Some? ==> Counted(t, rootPid.value, counted) && rss == Some(Total(t, counted)) && count == |counted|
  {
    if rootPid.None? { return None, 0, {}; }
    var selected := Select(t, rootPid.value);
    var known := selected * t.Keys;
    var todo, sum := known, 0;
    while todo != {}
      invariant todo <= known && sum + Total(t, todo) == Total(t, known)
      decreases |todo|
    {
      var pid :| pid in todo;
      TotalTakesOut(t, todo, pid);
      sum := sum + (if t[pid].rss.Some? then t[pid].rss.value else 0);
      todo := todo - {pid};
    }
    return Some(sum), |known|, known;
  }
}
