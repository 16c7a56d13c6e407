/** The parent relation between groups: the bounded walk that refuses cycles, and the forest it keeps. */
module GroupForest {
  import opened Basics
  import opened Schema

  const MAX_STEPS: nat := 1_000_000

  const SelfParent := InvalidInput("group cannot be its own parent")
  const CycleDetected := InvalidInput("cycle detected in group parent chain")

  /** How the walk up the parent chain ends. Clear also covers running out of steps. */
  datatype Verdict = Clear | Cycle | Missing

  /** The walk: each step compares the id first, then fetches the row within the domain. */
  function Walk(t: Tables, domain: Id, group: Id, at: Id, steps: nat): Verdict
    decreases steps
  {
    if steps == 0 then Clear
    else if at == group then Cycle
    else if !GroupIn(t, domain, at) then Missing
    else if t.groups[at].parent.None? then Clear
    else Walk(t, domain, group, t.groups[at].parent.value, steps - 1)
  }

  /** groupSetParentTx: the outcome of the checks and the UPDATE, for a given step limit. */
  function SetParent(t: Tables, domain: Id, group: Id, parent: Option<Id>, maxSteps: nat): Result<Tables> {
    if parent == Some(group) then Err(SelfParent)
    else if !GroupIn(t, domain, group) then Err(NotFound)
    else if parent.Some? && !GroupIn(t, domain, parent.value) then Err(NotFound)
    else if parent.Some? && Walk(t, domain, group, parent.value, maxSteps).Cycle? then Err(CycleDetected)
    else if parent.Some? && Walk(t, domain, group, parent.value, maxSteps).Missing? then Err(NotFound)
    else UpdateGroup(t, group, t.groups[group].title, parent)
  }

  // ---- ancestors ----

  /** The n-th ancestor of x, if the chain is that long. */
  ghost function Up(groups: map<Id, Group>, x: Id, n: nat): Option<Id>
    decreases n
  {
    if n == 0 then Some(x)
    else if x in groups && groups[x].parent.Some? then Up(groups, groups[x].parent.value, n - 1)
    else None
  }

  ghost predicate AncestorOrSelf(groups: map<Id, Group>, a: Id, x: Id) {
    exists n: nat :: Up(groups, x, n) == Some(a)
  }

  /** No group is its own proper ancestor. */
  ghost predicate Forest(groups: map<Id, Group>) {
    forall x, n: nat | n > 0 :: Up(groups, x, n) != Some(x)
  }

  /** The first n groups of the chain from x exist, lie in the domain and are not `group`. */
  ghost predicate DomainChain(t: Tables, domain: Id, group: Id, x: Id, n: nat) {
    forall i: nat | i < n :: Up(t.groups, x, i).Some? && Up(t.groups, x, i).value != group
                             && GroupIn(t, domain, Up(t.groups, x, i).value)
  }

  /** The n-th group of the chain is the first one outside the domain, and the chain has not met `group`. */
  ghost predicate LeavesAt(t: Tables, domain: Id, group: Id, x: Id, n: nat) {
    && DomainChain(t, domain, group, x, n)
    && Up(t.groups, x, n).Some? && Up(t.groups, x, n).value != group && !GroupIn(t, domain, Up(t.groups, x, n).value)
  }

  function DomainGroups(t: Tables, domain: Id): set<Id> {
    set g | g in t.groups && t.groups[g].domain == domain
  }

  lemma {:induction false} UpAdd(groups: map<Id, Group>, x: Id, m: nat, n: nat)
    requires Up(groups, x, m).Some?
    ensures Up(groups, x, m + n) == Up(groups, Up(groups, x, m).value, n)
    decreases m
  {
    if m > 0 {
      UpAdd(groups, groups[x].parent.value, m - 1, n);
    }
  }

  lemma UpPrefix(groups: map<Id, Group>, x: Id, m: nat, n: nat)
    requires m <= n && Up(groups, x, n).Some?
    ensures Up(groups, x, m).Some?
    decreases m
  {
    if m > 0 {
      UpPrefix(groups, groups[x].parent.value, m - 1, n - 1);
    }
  }

  // ---- what the walk finds ----

  /** Cycle: the group is met within the step limit, after groups of the domain only. */
  lemma {:induction false} WalkCycle(t: Tables, domain: Id, group: Id, x: Id, steps: nat)
    ensures Walk(t, domain, group, x, steps).Cycle? <==>
            exists n: nat | n < steps :: Up(t.groups, x, n) == Some(group) && DomainChain(t, domain, group, x, n)
    decreases steps
  {
    if steps == 0 {
    } else if x == group {
      assert Up(t.groups, x, 0) == Some(group) && DomainChain(t, domain, group, x, 0);
    } else if !GroupIn(t, domain, x) {
      forall n: nat | n < steps && Up(t.groups, x, n) == Some(group) ensures !DomainChain(t, domain, group, x, n) {
        assert Up(t.groups, x, 0) == Some(x);
      }
    } else if t.groups[x].parent.Some? {
      var up := t.groups[x].parent.value;
      WalkCycle(t, domain, group, up, steps - 1);
      forall n: nat ensures Up(t.groups, x, n + 1) == Up(t.groups, up, n)
                    ensures DomainChain(t, domain, group, x, n + 1) <==> DomainChain(t, domain, group, up, n) {
        ChainTail(t, domain, group, x, n);
      }
      if n: nat :| n < steps && Up(t.groups, x, n) == Some(group) && DomainChain(t, domain, group, x, n) {
        assert n - 1 + 1 == n;
        assert Up(t.groups, up, n - 1) == Some(group) && DomainChain(t, domain, group, up, n - 1);
      }
      if n: nat :| n < steps - 1 && Up(t.groups, up, n) == Some(group) && DomainChain(t, domain, group, up, n) {
        assert Up(t.groups, x, n + 1) == Some(group) && DomainChain(t, domain, group, x, n + 1);
      }
    }
  }

  /** Missing: the chain leaves the domain within the step limit, before the group is met. */
  lemma {:induction false} WalkMissing(t: Tables, domain: Id, group: Id, x: Id, steps: nat)
    ensures Walk(t, domain, group, x, steps).Missing? <==> exists n: nat | n < steps :: LeavesAt(t, domain, group, x, n)
    decreases steps
  {
    if steps == 0 {
    } else if x == group {
      forall n: nat ensures !LeavesAt(t, domain, group, x, n) {
        assert Up(t.groups, x, 0) == Some(x);
      }
    } else if !GroupIn(t, domain, x) {
      assert LeavesAt(t, domain, group, x, 0);
    } else if t.groups[x].parent.None? {
      assert Up(t.groups, x, 0) == Some(x);
    } else {
      var up := t.groups[x].parent.value;
      WalkMissing(t, domain, group, up, steps - 1);
      assert Up(t.groups, x, 0) == Some(x);
      forall n: nat ensures LeavesAt(t, domain, group, x, n + 1) <==> LeavesAt(t, domain, group, up, n) {
        assert Up(t.groups, x, n + 1) == Up(t.groups, up, n);
        ChainTail(t, domain, group, x, n);
      }
      if n: nat :| n < steps && LeavesAt(t, domain, group, x, n) {
        assert n - 1 + 1 == n;
        assert LeavesAt(t, domain, group, up, n - 1);
      }
      if n: nat :| n < steps - 1 && LeavesAt(t, domain, group, up, n) {
        assert LeavesAt(t, domain, group, x, n + 1);
      }
    }
  }

  lemma ChainTail(t: Tables, domain: Id, group: Id, x: Id, n: nat)
    requires GroupIn(t, domain, x) && x != group && t.groups[x].parent.Some?
    ensures DomainChain(t, domain, group, x, n + 1) <==> DomainChain(t, domain, group, t.groups[x].parent.value, n)
  {
    var up := t.groups[x].parent.value;
    assert forall i: nat :: Up(t.groups, x, i + 1) == Up(t.groups, up, i);
    if DomainChain(t, domain, group, x, n + 1) {
      forall i: nat | i < n
        ensures Up(t.groups, up, i).Some? && Up(t.groups, up, i).value != group
                && GroupIn(t, domain, Up(t.groups, up, i).value)
      {
        assert Up(t.groups, x, i + 1) == Up(t.groups, up, i);
      }
    }
    if DomainChain(t, domain, group, up, n) {
      forall i: nat | i < n + 1
        ensures Up(t.groups, x, i).Some? && Up(t.groups, x, i).value != group
                && GroupIn(t, domain, Up(t.groups, x, i).value)
      {
        if i > 0 { assert Up(t.groups, x, i - 1 + 1) == Up(t.groups, up, i - 1); }
      }
    }
  }

  /** Clear: either the whole chain was seen, or the steps ran out first. */
  lemma {:induction false} WalkClear(t: Tables, domain: Id, group: Id, x: Id, steps: nat)
    requires Walk(t, domain, group, x, steps).Clear?
    ensures DomainChain(t, domain, group, x, steps) || !AncestorOrSelf(t.groups, group, x)
    decreases steps
  {
    if steps > 0 && t.groups[x].parent.None? {
      forall n: nat ensures Up(t.groups, x, n) != Some(group) {}
    } else if steps > 0 {
      var up := t.groups[x].parent.value;
      WalkClear(t, domain, group, up, steps - 1);
      ChainTail(t, domain, group, x, steps - 1);
      if n: nat :| Up(t.groups, x, n) == Some(group) {
        assert Up(t.groups, up, n - 1) == Some(group);
      }
    }
  }

  // ---- the step limit against the number of groups ----

  ghost function ChainSet(groups: map<Id, Group>, x: Id, n: nat): set<Id> {
    set i: nat | i < n && Up(groups, x, i).Some? :: Up(groups, x, i).value
  }

  /** In a forest a chain never repeats, so n of its groups are n different groups. */
  lemma {:induction false} ChainDistinct(groups: map<Id, Group>, x: Id, n: nat)
    requires Forest(groups)
    requires forall i: nat | i < n :: Up(groups, x, i).Some?
    ensures |ChainSet(groups, x, n)| == n
  {
    if n > 0 {
      ChainDistinct(groups, x, n - 1);
      var last := Up(groups, x, n - 1).value;
      forall i: nat | i < n - 1 ensures Up(groups, x, i).value != last {
        UpAdd(groups, x, i, n - 1 - i);
      }
      assert last !in ChainSet(groups, x, n - 1);
      assert ChainSet(groups, x, n) == ChainSet(groups, x, n - 1) + {last};
    } else {
      assert ChainSet(groups, x, n) == {};
    }
  }

  /** A chain inside the domain that avoids `group` is shorter than the number of groups in the domain. */
  lemma ChainShort(t: Tables, domain: Id, group: Id, x: Id, n: nat)
    requires Forest(t.groups) && GroupIn(t, domain, group)
    requires DomainChain(t, domain, group, x, n)
    ensures n < |DomainGroups(t, domain)|
  {
    ChainDistinct(t.groups, x, n);
    var chain := ChainSet(t.groups, x, n);
    assert chain + {group} <= DomainGroups(t, domain);
    SubsetSize(chain + {group}, DomainGroups(t, domain));
  }

  // ---- main results ----

  /** With no more groups in the domain than steps, the cycle error is raised exactly when the group
      is met going up from the new parent through groups of the domain. */
  lemma CycleReportedExactly(t: Tables, domain: Id, group: Id, parent: Id, maxSteps: nat)
    requires Forest(t.groups) && |DomainGroups(t, domain)| <= maxSteps
    requires GroupIn(t, domain, group) && GroupIn(t, domain, parent) && parent != group
    ensures SetParent(t, domain, group, Some(parent), maxSteps) == Err(CycleDetected) <==>
            exists n: nat :: Up(t.groups, parent, n) == Some(group) && DomainChain(t, domain, group, parent, n)
  {
    WalkCycle(t, domain, group, parent, maxSteps);
    if n: nat :| Up(t.groups, parent, n) == Some(group) && DomainChain(t, domain, group, parent, n) {
      ChainShort(t, domain, group, parent, n);
    }
  }

  /** Every parent lies in its child's domain. The schema does not ask for this. */
  ghost predicate SameDomainParents(t: Tables) {
    forall g {:trigger t.groups[g]} | g in t.groups && t.groups[g].parent.Some? ::
      GroupIn(t, t.groups[g].domain, t.groups[g].parent.value)
  }

  /** If parents stay in their domain, the error means exactly "ancestor or self", and every other
      request between existing groups succeeds. */
  lemma CycleReportedIffAncestor(t: Tables, domain: Id, group: Id, parent: Id, maxSteps: nat)
    requires ForeignKeys(t) && Forest(t.groups) && SameDomainParents(t) && |DomainGroups(t, domain)| <= maxSteps
    requires GroupIn(t, domain, group) && GroupIn(t, domain, parent) && parent != group
    ensures AncestorOrSelf(t.groups, group, parent) ==>
            SetParent(t, domain, group, Some(parent), maxSteps) == Err(CycleDetected)
    ensures !AncestorOrSelf(t.groups, group, parent) ==>
            SetParent(t, domain, group, Some(parent), maxSteps).Ok?
  {
    CycleReportedExactly(t, domain, group, parent, maxSteps);
    NeverMissing(t, domain, group, parent, maxSteps);
    if n: nat :| Up(t.groups, parent, n) == Some(group) {
      var m := FirstMeeting(t.groups, parent, group, n);
      forall i: nat | i < m
        ensures Up(t.groups, parent, i).Some? && Up(t.groups, parent, i).value != group
                && GroupIn(t, domain, Up(t.groups, parent, i).value)
      {
        UpPrefix(t.groups, parent, i, m);
        UpInDomain(t, domain, parent, i);
      }
      assert DomainChain(t, domain, group, parent, m);
    }
  }

  lemma {:induction false} NeverMissing(t: Tables, domain: Id, group: Id, x: Id, steps: nat)
    requires SameDomainParents(t) && GroupIn(t, domain, x)
    ensures !Walk(t, domain, group, x, steps).Missing?
    decreases steps
  {
    if steps > 0 && t.groups[x].parent.Some? {
      NeverMissing(t, domain, group, t.groups[x].parent.value, steps - 1);
    }
  }

  lemma {:induction false} UpInDomain(t: Tables, domain: Id, x: Id, n: nat)
    requires SameDomainParents(t) && GroupIn(t, domain, x)
    requires Up(t.groups, x, n).Some?
    ensures GroupIn(t, domain, Up(t.groups, x, n).value)
    decreases n
  {
    if n > 0 {
      UpInDomain(t, domain, t.groups[x].parent.value, n - 1);
    }
  }

  /** The least distance at which `group` is met. */
  lemma {:induction false} FirstMeeting(groups: map<Id, Group>, x: Id, group: Id, n: nat) returns (m: nat)
    requires Up(groups, x, n) == Some(group)
    ensures m <= n && Up(groups, x, m) == Some(group)
    ensures forall i: nat | i < m :: Up(groups, x, i) != Some(group)
  {
    m := n;
    if i: nat :| i < n && Up(groups, x, i) == Some(group) {
      m := FirstMeeting(groups, x, group, i);
    }
  }

  /** Pointing a group of a forest at `parent` gives a forest exactly when the group is not an
      ancestor-or-self of the parent. */
  lemma RepointForest(groups: map<Id, Group>, id: Id, row: Group)
    requires Forest(groups)
    ensures Forest(groups[id := row]) <==> (row.parent.None? || !AncestorOrSelf(groups, id, row.parent.value))
  {
    var after := groups[id := row];
    if row.parent.Some? && AncestorOrSelf(groups, id, row.parent.value) {
      var n: nat :| Up(groups, row.parent.value, n) == Some(id);
      var m := FirstMeeting(groups, row.parent.value, id, n);
      UpUntouched(groups, after, id, row.parent.value, m);
      assert Up(after, id, m + 1) == Some(id);
    } else {
      forall x, n: nat | n > 0 ensures Up(after, x, n) != Some(x) {
        if Up(after, x, n) == Some(x) {
          NoCycleAfter(groups, id, row, x, n);
          assert false;
        }
      }
    }
  }

  lemma NoCycleAfter(groups: map<Id, Group>, id: Id, row: Group, x: Id, n: nat)
    requires Forest(groups)
    requires row.parent.None? || !AncestorOrSelf(groups, id, row.parent.value)
    requires n > 0
    ensures Up(groups[id := row], x, n) != Some(x)
  {
    var after := groups[id := row];
    if Up(after, x, n) == Some(x) {
      if i: nat :| i < n && Up(after, x, i) == Some(id) {
        UpAdd(after, x, n, i);
        UpAdd(after, x, i, n);
        assert Up(after, id, n) == Some(id);
        assert row.parent.Some? && Up(after, row.parent.value, n - 1) == Some(id);
        var m := FirstMeeting(after, row.parent.value, id, n - 1);
        UpUntouched(after, groups, id, row.parent.value, m);
      } else {
        UpUntouched(after, groups, id, x, n);
      }
    }
  }

  /** Chains that do not pass through `id` are the same whatever `id`'s row says. */
  lemma {:induction false} UpUntouched(a: map<Id, Group>, b: map<Id, Group>, id: Id, x: Id, n: nat)
    requires forall g | g != id :: (g in a <==> g in b) && (g in a ==> a[g].parent == b[g].parent)
    requires forall i: nat | i < n :: Up(a, x, i) != Some(id)
    ensures Up(a, x, n) == Up(b, x, n)
    decreases n
  {
    if n > 0 {
      assert Up(a, x, 0) == Some(x);
      if x in a && a[x].parent.Some? {
        forall i: nat | i < n - 1 ensures Up(a, a[x].parent.value, i) != Some(id) {
          assert Up(a, x, i + 1) == Up(a, a[x].parent.value, i);
        }
        UpUntouched(a, b, id, a[x].parent.value, n - 1);
      }
    }
  }

  /** A successful SetParent keeps the forest when the domain has no more groups than the walk has steps. */
  lemma SetParentKeepsForest(t: Tables, domain: Id, group: Id, parent: Option<Id>, maxSteps: nat)
    requires Forest(t.groups) && |DomainGroups(t, domain)| <= maxSteps
    requires SetParent(t, domain, group, parent, maxSteps).Ok?
    ensures Forest(SetParent(t, domain, group, parent, maxSteps).value.groups)
  {
    RepointForest(t.groups, group, t.groups[group].(parent := parent));
    if parent.Some? {
      WalkClear(t, domain, group, parent.value, maxSteps);
      if DomainChain(t, domain, group, parent.value, maxSteps) {
        ChainShort(t, domain, group, parent.value, maxSteps);
        assert false;
      }
    }
  }

  /** Without that bound: a successful SetParent breaks the forest exactly when the group is an
      ancestor of the parent, and then only one at least maxSteps away. */
  lemma SetParentBreaksForestExactly(t: Tables, domain: Id, group: Id, parent: Id, maxSteps: nat)
    requires Forest(t.groups)
    requires SetParent(t, domain, group, Some(parent), maxSteps).Ok?
    ensures !Forest(SetParent(t, domain, group, Some(parent), maxSteps).value.groups) <==>
            exists n: nat | n >= maxSteps :: Up(t.groups, parent, n) == Some(group)
  {
    var row := t.groups[group].(parent := Some(parent));
    RepointForest(t.groups, group, row);
    assert SetParent(t, domain, group, Some(parent), maxSteps).value.groups == t.groups[group := row];
    WalkClear(t, domain, group, parent, maxSteps);
    if n: nat :| Up(t.groups, parent, n) == Some(group) {
      assert AncestorOrSelf(t.groups, group, parent);
      assert DomainChain(t, domain, group, parent, maxSteps);
      assert n >= maxSteps && Up(t.groups, parent, n) == Some(group);
      assert exists m: nat | m >= maxSteps :: Up(t.groups, parent, m) == Some(group);
    }
  }

  // ---- the limit is real: a chain one group longer than the walk ----

  function Name(i: nat): Id {
    seq(i, _ => 'g')
  }

  /** Groups Name(0) .. Name(n) of one domain, each the child of the next. */
  ghost function LongChain(domain: Id, n: nat): Tables {
    var ids := set i: nat | i <= n :: Name(i);
    EmptyTables.(
      domains := {domain},
      groups := map id | id in ids :: Group(domain, "", if |id| == n then None else Some(Name(|id| + 1))))
  }

  lemma LongChainRow(domain: Id, n: nat, i: nat)
    requires i <= n
    ensures Name(i) in LongChain(domain, n).groups
    ensures LongChain(domain, n).groups[Name(i)] == Group(domain, "", if i == n then None else Some(Name(i + 1)))
  {
    assert |Name(i)| == i;
  }

  lemma {:induction false} LongChainUp(domain: Id, n: nat, i: nat, k: nat, j: nat)
    requires i + k == j <= n
    ensures Up(LongChain(domain, n).groups, Name(i), k) == Some(Name(j))
    decreases k
  {
    if k > 0 {
      LongChainRow(domain, n, i);
      LongChainUp(domain, n, i + 1, k - 1, j);
    }
  }

  lemma {:induction false} LongChainWalk(domain: Id, n: nat, i: nat, steps: nat)
    requires i + steps == n
    ensures Walk(LongChain(domain, n), domain, Name(n), Name(i), steps).Clear?
    decreases steps
  {
    if steps > 0 {
      LongChainRow(domain, n, i);
      assert |Name(i)| == i && |Name(n)| == n;
      LongChainWalk(domain, n, i + 1, steps - 1);
    }
  }

  /** Every chain is a forest whose ids are one step longer at each parent. */
  lemma {:induction false} LongChainLength(domain: Id, n: nat, x: Id, k: nat)
    requires Up(LongChain(domain, n).groups, x, k).Some?
    ensures |Up(LongChain(domain, n).groups, x, k).value| == |x| + k
    decreases k
  {
    if k > 0 {
      LongChainLength(domain, n, LongChain(domain, n).groups[x].parent.value, k - 1);
    }
  }

  lemma LongChainConsistent(domain: Id, n: nat)
    ensures Consistent(LongChain(domain, n)) && SameDomainParents(LongChain(domain, n))
  {
    var t := LongChain(domain, n);
    forall g | g in t.groups && t.groups[g].parent.Some? ensures GroupIn(t, t.groups[g].domain, t.groups[g].parent.value) {
      var i: nat :| i <= n && g == Name(i);
      LongChainRow(domain, n, i);
      LongChainRow(domain, n, i + 1);
    }
  }

  lemma LongChainForest(domain: Id, n: nat)
    ensures Forest(LongChain(domain, n).groups)
  {
    var groups := LongChain(domain, n).groups;
    forall x, k: nat | k > 0 ensures Up(groups, x, k) != Some(x) {
      if Up(groups, x, k).Some? { LongChainLength(domain, n, x, k); }
    }
  }

  lemma LongChainAccepted(domain: Id, n: nat)
    requires n > 0
    ensures SetParent(LongChain(domain, n), domain, Name(n), Some(Name(0)), n).Ok?
  {
    LongChainRow(domain, n, 0);
    LongChainRow(domain, n, n);
    LongChainWalk(domain, n, 0, n);
    assert |Name(0)| == 0 && |Name(n)| == n;
  }

  lemma LongChainSize(domain: Id, n: nat)
    ensures |DomainGroups(LongChain(domain, n), domain)| == n + 1
  {
    var t := LongChain(domain, n);
    forall i: nat | i <= n ensures Up(t.groups, Name(0), i) == Some(Name(i)) {
      LongChainUp(domain, n, 0, i, i);
    }
    LongChainForest(domain, n);
    ChainDistinct(t.groups, Name(0), n + 1);
    var chain := ChainSet(t.groups, Name(0), n + 1);
    forall g | g in DomainGroups(t, domain) ensures g in chain {
      var i: nat :| i <= n && g == Name(i);
      assert Up(t.groups, Name(0), i) == Some(g);
    }
    forall g | g in chain ensures g in DomainGroups(t, domain) {
      var i: nat :| i < n + 1 && Up(t.groups, Name(0), i) == Some(g);
      LongChainRow(domain, n, i);
    }
    assert chain == DomainGroups(t, domain);
  }

  /** A chain of n + 1 groups whose top is asked to move below its bottom: the walk from the bottom
      uses up n steps before it gets there. */
  lemma LongChainCase(domain: Id, n: nat) returns (t: Tables, group: Id, parent: Id)
    requires n > 0
    ensures Consistent(t) && Forest(t.groups) && SameDomainParents(t) && |DomainGroups(t, domain)| == n + 1
    ensures SetParent(t, domain, group, Some(parent), n).Ok?
    ensures Up(t.groups, parent, n) == Some(group)
  {
    t, group, parent := LongChain(domain, n), Name(n), Name(0);
    LongChainConsistent(domain, n);
    LongChainForest(domain, n);
    LongChainSize(domain, n);
    LongChainAccepted(domain, n);
    LongChainUp(domain, n, 0, n, n);
  }

  /** The bound is tight: for every step limit there is a consistent forest with just one group more
      on which SetParent succeeds and closes a cycle. */
  lemma StepLimitMissesCycle(domain: Id, maxSteps: nat) returns (t: Tables, group: Id, parent: Id)
    requires maxSteps > 0
    ensures Consistent(t) && Forest(t.groups) && SameDomainParents(t)
    ensures |DomainGroups(t, domain)| == maxSteps + 1
    ensures SetParent(t, domain, group, Some(parent), maxSteps).Ok?
    ensures !Forest(SetParent(t, domain, group, Some(parent), maxSteps).value.groups)
  {
    t, group, parent := LongChainCase(domain, maxSteps);
    SetParentBreaksForestExactly(t, domain, group, parent, maxSteps);
  }

  // ---- the other group statements ----

  /** A fresh group with an existing parent (or none) joins the forest; only naming itself breaks it. */
  lemma InsertGroupForest(t: Tables, id: Id, g: Group)
    requires ForeignKeys(t) && Forest(t.groups)
    requires InsertGroup(t, id, g).Ok?
    ensures Forest(InsertGroup(t, id, g).value.groups) <==> g.parent != Some(id)
  {
    RepointForest(t.groups, id, g);
    if g.parent == Some(id) {
      assert Up(t.groups, id, 0) == Some(id);
    } else if g.parent.Some? {
      forall n: nat ensures Up(t.groups, g.parent.value, n) != Some(id) {
        UpExists(t, g.parent.value, n);
      }
    }
  }

  lemma {:induction false} UpExists(t: Tables, x: Id, n: nat)
    requires ForeignKeys(t) && x in t.groups
    ensures Up(t.groups, x, n).Some? ==> Up(t.groups, x, n).value in t.groups
    decreases n
  {
    if n > 0 && t.groups[x].parent.Some? {
      UpExists(t, t.groups[x].parent.value, n - 1);
    }
  }

  lemma DeleteGroupForest(t: Tables, domain: Id, id: Id)
    requires Forest(t.groups)
    requires DeleteGroup(t, domain, id).Ok?
    ensures Forest(DeleteGroup(t, domain, id).value.groups)
  {
    var after := t.groups - {id};
    forall x, n: nat | n > 0 ensures Up(after, x, n) != Some(x) {
      UpSubmap(after, t.groups, x, n);
    }
  }

  lemma {:induction false} UpSubmap(small: map<Id, Group>, large: map<Id, Group>, x: Id, n: nat)
    requires forall g | g in small :: g in large && large[g].parent == small[g].parent
    ensures Up(small, x, n).Some? ==> Up(large, x, n) == Up(small, x, n)
    decreases n
  {
    if n > 0 && x in small && small[x].parent.Some? {
      UpSubmap(small, large, small[x].parent.value, n - 1);
    }
  }
}
