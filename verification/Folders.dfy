/** The folder tree: walking down to all descendants and up to the root. */
module Folders {
  import opened Wrappers
  import opened Sequences

  datatype Folder = Folder(name: string, parent: Option<string>)

  type Forest = map<string, Folder>

  const MAX_VISITS: nat := 10000
  const MAX_DEPTH: nat := 64

  function Children(f: Forest, id: string): set<string> {
    set c | c in f && f[c].parent == Some(id)
  }

  /** The folder `n` steps above; every step but the last must meet a stored row. */
  function Above(f: Forest, id: string, n: nat): Option<string> {
    if n == 0 then Some(id)
    else
      match Above(f, id, n - 1)
      case None => None
      case Some(x) => if x in f then f[x].parent else None
  }

  /** `id` lies below `top`, one or more steps down. */
  ghost predicate Below(f: Forest, id: string, top: string) {
    exists n: nat :: 0 < n && IsAbove(f, id, n, top)
  }

  predicate IsAbove(f: Forest, id: string, n: nat, top: string) {
    Above(f, id, n) == Some(top)
  }

  /** No folder lies below itself. */
  ghost predicate Acyclic(f: Forest) {
    forall id :: id in f ==> !Below(f, id, id)
  }

  ghost function Descendants(f: Forest, top: string): set<string> {
    set d | d in f && Below(f, d, top)
  }

  // ---- Steps up and down ----

  lemma {:induction false} AboveAdds(f: Forest, id: string, m: nat, n: nat, mid: string)
    requires Above(f, id, m) == Some(mid)
    ensures Above(f, id, m + n) == Above(f, mid, n)
  {
    if n > 0 {
      AboveAdds(f, id, m, n - 1, mid);
    }
  }

  lemma ChildIsBelow(f: Forest, c: string, parent: string)
    requires c in Children(f, parent)
    ensures Below(f, c, parent)
  {
    assert Above(f, c, 0) == Some(c);
    assert IsAbove(f, c, 1, parent);
  }

  lemma BelowTransitive(f: Forest, a: string, b: string, c: string)
    requires Below(f, a, b) && Below(f, b, c)
    ensures Below(f, a, c)
  {
    var m: nat :| 0 < m && IsAbove(f, a, m, b);
    var n: nat :| 0 < n && IsAbove(f, b, n, c);
    AboveAdds(f, a, m, n, b);
    assert IsAbove(f, a, m + n, c);
  }

  /** A folder's descendants are its children and theirs, by the parent links alone. */
  lemma DescendantsByParents(f: Forest, top: string, d: string)
    ensures d in Descendants(f, top) <==>
              && d in f && f[d].parent.Some?
              && (f[d].parent.value == top || f[d].parent.value in Descendants(f, top))
  {
    if d in f && f[d].parent.Some? {
      var p := f[d].parent.value;
      ChildIsBelow(f, d, p);
      if p in Descendants(f, top) {
        BelowTransitive(f, d, p, top);
      }
    }
    if d in Descendants(f, top) {
      var n: nat :| 0 < n && IsAbove(f, d, n, top);
      var p := FirstStep(f, d, n, top);
      assert n > 1 ==> 0 < n - 1 && IsAbove(f, p, n - 1, top);
    }
  }

  // ---- The walk down ----

  /**
   * What the traversal keeps: `out` holds children of visited folders, all of them
   * descendants; visited folders have all their children in `out`; the others in `out`
   * are on the stack.
   */
  ghost predicate Walking(f: Forest, top: string, out: seq<string>, stack: seq<string>, popped: set<string>) {
    && (forall d :: d in out ==> d in f && Below(f, d, top))
    && (forall d :: d in out ==> d in f && f[d].parent.Some? && f[d].parent.value in popped)
    && (forall x :: x in stack ==> x == top || x in out)
    && (forall x :: x in popped ==> forall c :: c in Children(f, x) ==> c in out)
    && (forall x :: x == top || x in out ==> x in stack || x in popped)
  }

  /** On an acyclic forest nothing is visited twice. */
  ghost predicate VisitingOnce(top: string, out: seq<string>, stack: seq<string>, popped: set<string>) {
    && NoRepeats(out) && NoRepeats(stack)
    && (forall x :: x in stack ==> x !in popped)
    && (forall x :: x in popped ==> x == top || x in out)
    && top !in out
  }

  /** The listing of one `SELECT id … WHERE parent_id`: the children in any order. */
  method SelectChildren(f: Forest, id: string) returns (rows: seq<string>)
    ensures NoRepeats(rows) && Members(rows) == Children(f, id)
  {
    rows := [];
    var pending := Children(f, id);
    while pending != {}
      invariant pending <= Children(f, id)
      invariant NoRepeats(rows) && Members(rows) == Children(f, id) - pending
      decreases pending
    {
      var c :| c in pending;
      MembersSnoc(rows, c);
      assert forall x :: x in rows ==> x in Members(rows);
      assert Children(f, id) - (pending - {c}) == (Children(f, id) - pending) + {c};
      rows := rows + [c];
      pending := pending - {c};
    }
  }

  /** Everything the stack walk finds; it stops after ten thousand visits on any graph. */
  method GetDescendantIds(f: Forest, top: string) returns (out: seq<string>)
    ensures forall d :: d in out ==> d in Descendants(f, top)
    ensures Acyclic(f) ==> NoRepeats(out)
    ensures Acyclic(f) && |Descendants(f, top)| < MAX_VISITS ==> Members(out) == Descendants(f, top)
  {
    out := [];
    var stack := [top];
    var guard := 0;
    ghost var popped: set<string> := {};
    while stack != [] && guard < MAX_VISITS
      invariant guard <= MAX_VISITS
      invariant Walking(f, top, out, stack, popped)
      invariant Acyclic(f) ==> VisitingOnce(top, out, stack, popped) && |popped| == guard
      decreases MAX_VISITS - guard
    {
      guard := guard + 1;
      var parent := stack[|stack| - 1];
      var rest := stack[..|stack| - 1];
      assert stack == rest + [parent];
      var children := SelectChildren(f, parent);
      VisitStep(f, top, out, rest, popped, parent, children);
      out := out + children;
      stack := rest + children;
      popped := popped + {parent};
    }
    if stack == [] {
      WalkFinished(f, top, out, popped);
    } else if Acyclic(f) {
      CutShort(f, top, out, stack, popped);
    }
    assert forall d :: d in out <==> d in Members(out);
  }

  lemma VisitStep(f: Forest, top: string, out: seq<string>, rest: seq<string>, popped: set<string>, parent: string, children: seq<string>)
    requires Walking(f, top, out, rest + [parent], popped)
    requires NoRepeats(children) && Members(children) == Children(f, parent)
    ensures Walking(f, top, out + children, rest + children, popped + {parent})
    ensures Acyclic(f) && VisitingOnce(top, out, rest + [parent], popped) ==>
              VisitingOnce(top, out + children, rest + children, popped + {parent}) && parent !in popped
  {
    assert parent in rest + [parent];
    assert forall c :: c in children <==> c in Members(children);
    forall c | c in children ensures c in f && Below(f, c, top) {
      ChildIsBelow(f, c, parent);
      if parent != top {
        BelowTransitive(f, c, parent, top);
      }
    }
    StackMembers(rest, parent, children);
    if Acyclic(f) && VisitingOnce(top, out, rest + [parent], popped) {
      NewChildren(f, top, out, rest, popped, parent, children);
      NoRepeatsConcat(out, children);
      RestIsApart(rest, parent);
      NoRepeatsConcat(rest, children);
    }
  }

  lemma StackMembers(rest: seq<string>, parent: string, children: seq<string>)
    ensures forall x :: x in rest + [parent] <==> x in rest || x == parent
    ensures forall x :: x in rest + children <==> x in rest || x in children
  {
  }

  lemma RestIsApart(rest: seq<string>, parent: string)
    requires NoRepeats(rest + [parent])
    ensures NoRepeats(rest) && parent !in rest
  {
    var all := rest + [parent];
    assert forall i :: 0 <= i < |rest| ==> all[i] == rest[i];
    assert all[|rest|] == parent;
  }

  lemma NoRepeatsConcat(a: seq<string>, b: seq<string>)
    requires NoRepeats(a) && NoRepeats(b) && forall x :: x in a ==> x !in b
    ensures NoRepeats(a + b)
  {
    forall i, j | 0 <= i < j < |a + b| ensures (a + b)[i] != (a + b)[j] {
      if i < |a| <= j {
        assert a[i] in a && b[j - |a|] in b;
      }
    }
  }

  /** A child found now was not found before: its one parent is visited only now. */
  lemma NewChildren(f: Forest, top: string, out: seq<string>, rest: seq<string>, popped: set<string>, parent: string, children: seq<string>)
    requires Acyclic(f) && Walking(f, top, out, rest + [parent], popped)
    requires VisitingOnce(top, out, rest + [parent], popped)
    requires Members(children) == Children(f, parent)
    ensures parent !in popped
    ensures forall c :: c in children ==> c !in out && c !in rest && c != top && c !in popped && c != parent
  {
    assert parent in rest + [parent];
    StackMembers(rest, parent, children);
    forall c | c in children
      ensures c !in out && c !in rest && c != top && c !in popped && c != parent
    {
      assert c in Members(children);
      ChildIsBelow(f, c, parent);
      assert !Below(f, c, c);
      if c == top && parent != top {
        BelowTransitive(f, c, parent, c);
      }
    }
  }

  lemma {:induction false} ReachedByTheWalk(f: Forest, top: string, out: seq<string>, popped: set<string>, d: string, n: nat)
    requires Walking(f, top, out, [], popped)
    requires 0 < n && d in f && IsAbove(f, d, n, top)
    ensures d in out
    decreases n
  {
    hide Above, Walking, Children;
    var p := FirstStep(f, d, n, top);
    if n > 1 {
      ReachedByTheWalk(f, top, out, popped, p, n - 1);
    }
    ChildOfVisited(f, top, out, popped, p, d);
  }

  lemma FirstStep(f: Forest, d: string, n: nat, top: string) returns (p: string)
    requires 0 < n && d in f && IsAbove(f, d, n, top)
    ensures d in Children(f, p) && IsAbove(f, p, n - 1, top)
    ensures n == 1 ==> p == top
    ensures n > 1 ==> p in f
  {
    assert Above(f, d, 0) == Some(d);
    assert Above(f, d, 1) == f[d].parent;
    SomeBelow(f, d, 1, n - 1);
    p := f[d].parent.value;
    AboveAdds(f, d, 1, n - 1, p);
    if n > 1 {
      SomeBelow(f, p, 1, n - 2);
      assert Above(f, p, 0) == Some(p);
    }
  }

  lemma ChildOfVisited(f: Forest, top: string, out: seq<string>, popped: set<string>, p: string, d: string)
    requires Walking(f, top, out, [], popped)
    requires (p == top || p in out) && d in Children(f, p)
    ensures d in out
  {
    hide Children;
    assert p in popped;
  }

  /** A longer way up passes every shorter one. */
  lemma {:induction false} SomeBelow(f: Forest, id: string, m: nat, n: nat)
    requires Above(f, id, m + n).Some?
    ensures Above(f, id, m).Some?
  {
    if n > 0 {
      SomeBelow(f, id, m, n - 1);
    }
  }

  lemma WalkFinished(f: Forest, top: string, out: seq<string>, popped: set<string>)
    requires Walking(f, top, out, [], popped)
    ensures Members(out) == Descendants(f, top)
  {
    forall d ensures d in Members(out) <==> d in Descendants(f, top) {
      if d in Descendants(f, top) {
        var n: nat :| 0 < n && IsAbove(f, d, n, top);
        ReachedByTheWalk(f, top, out, popped, d, n);
      }
    }
  }

  /** A walk cut short has visited the top and as many descendants as the guard allows, and one more waits. */
  lemma CutShort(f: Forest, top: string, out: seq<string>, stack: seq<string>, popped: set<string>)
    requires Walking(f, top, out, stack, popped) && VisitingOnce(top, out, stack, popped)
    requires stack != []
    ensures |popped| <= |Descendants(f, top)|
  {
    var waiting := stack[0];
    var seen := popped + {waiting};
    assert seen <= Descendants(f, top) + {top};
    assert |seen| == |popped| + 1;
    SubsetSize(seen, Descendants(f, top) + {top});
    assert |Descendants(f, top) + {top}| <= |Descendants(f, top)| + 1;
  }

  lemma {:induction false} SubsetSize(a: set<string>, b: set<string>)
    requires a <= b
    ensures |a| <= |b|
  {
    if a != {} {
      var x :| x in a;
      SubsetSize(a - {x}, b - {x});
    }
  }

  // ---- The walk up ----

  datatype Crumb = Crumb(id: string, name: string)

  /** `a` stands on the path of `id`: an existing folder fewer than 64 steps up. */
  ghost predicate OnPath(f: Forest, id: string, a: string) {
    a in f && exists n: nat :: n < MAX_DEPTH && IsAbove(f, id, n, a)
  }

  /** `c` names the existing folder `n` steps above `id`. */
  predicate CrumbAt(f: Forest, id: string, c: Crumb, n: nat) {
    Above(f, id, n) == Some(c.id) && c.id in f && c.name == f[c.id].name
  }

  ghost predicate IsTrail(f: Forest, id: string, crumbs: seq<Crumb>) {
    forall k :: 0 <= k < |crumbs| ==> CrumbAt(f, id, crumbs[k], |crumbs| - 1 - k)
  }

  /** Nothing above the trail's first crumb is left out, but for the depth limit. */
  predicate TrailEnds(f: Forest, id: string, n: nat) {
    n == MAX_DEPTH || Above(f, id, n).None? || Above(f, id, n).value !in f
  }

  /** Breadcrumbs from the root side down to the folder, at most 64 of them, on any graph. */
  method GetFullPath(f: Forest, id: string) returns (crumbs: seq<Crumb>)
    ensures |crumbs| <= MAX_DEPTH && IsTrail(f, id, crumbs) && TrailEnds(f, id, |crumbs|)
    ensures forall a :: (exists c :: c in crumbs && c.id == a) <==> OnPath(f, id, a)
    ensures forall c :: c in crumbs ==> c.id in f && c.name == f[c.id].name
    ensures crumbs != [] ==> crumbs[|crumbs| - 1].id == id
    ensures forall k :: 0 < k < |crumbs| ==> f[crumbs[k].id].parent == Some(crumbs[k - 1].id)
  {
    hide Above, OnPath, CrumbAt, IsTrail;
    crumbs := [];
    AboveNothing(f, id);
    var current := Some(id);
    var guard := 0;
    while current.Some? && guard < MAX_DEPTH
      invariant guard <= MAX_DEPTH && guard == |crumbs|
      invariant current == Above(f, id, guard)
      invariant IsTrail(f, id, crumbs)
      invariant forall c :: c in crumbs ==> c.id in f && c.name == f[c.id].name
      invariant if crumbs == [] then current == Some(id) else crumbs[|crumbs| - 1].id == id && f[crumbs[0].id].parent == current
      invariant forall k :: 0 < k < |crumbs| ==> f[crumbs[k].id].parent == Some(crumbs[k - 1].id)
      decreases MAX_DEPTH - guard
    {
      if current.value !in f {
        break;
      }
      var crumb := Crumb(current.value, f[current.value].name);
      TrailGrows(f, id, crumbs, crumb);
      AboveNext(f, id, guard);
      crumbs := [crumb] + crumbs;
      current := f[current.value].parent;
      guard := guard + 1;
    }
    forall a ensures (exists c :: c in crumbs && c.id == a) <==> OnPath(f, id, a) {
      if c :| c in crumbs && c.id == a {
        CrumbIsOnPath(f, id, crumbs, c);
      }
      if OnPath(f, id, a) {
        CrumbOf(f, id, crumbs, a);
      }
    }
  }

  lemma TrailGrows(f: Forest, id: string, crumbs: seq<Crumb>, c: Crumb)
    requires IsTrail(f, id, crumbs)
    requires Above(f, id, |crumbs|) == Some(c.id) && c.id in f && c.name == f[c.id].name
    ensures IsTrail(f, id, [c] + crumbs)
  {
    hide Above;
    var longer := [c] + crumbs;
    forall k | 0 <= k < |longer| ensures CrumbAt(f, id, longer[k], |longer| - 1 - k) {
      if k > 0 {
        assert longer[k] == crumbs[k - 1];
      }
    }
  }

  lemma AboveNothing(f: Forest, id: string)
    ensures Above(f, id, 0) == Some(id)
    ensures IsTrail(f, id, [])
  {
  }

  lemma AboveNext(f: Forest, id: string, n: nat)
    ensures Above(f, id, n + 1) ==
            match Above(f, id, n)
            case None => None
            case Some(x) => if x in f then f[x].parent else None
  {
  }

  lemma CrumbIsOnPath(f: Forest, id: string, crumbs: seq<Crumb>, c: Crumb)
    requires |crumbs| <= MAX_DEPTH && IsTrail(f, id, crumbs) && c in crumbs
    ensures OnPath(f, id, c.id)
  {
    hide Above;
    var k :| 0 <= k < |crumbs| && crumbs[k] == c;
    assert CrumbAt(f, id, crumbs[k], |crumbs| - 1 - k);
    assert IsAbove(f, id, |crumbs| - 1 - k, c.id);
  }

  lemma CrumbOf(f: Forest, id: string, crumbs: seq<Crumb>, a: string)
    requires IsTrail(f, id, crumbs) && TrailEnds(f, id, |crumbs|)
    requires OnPath(f, id, a)
    ensures exists c :: c in crumbs && c.id == a
  {
    hide Above;
    var n: nat :| n < MAX_DEPTH && IsAbove(f, id, n, a);
    if n >= |crumbs| {
      SomeBelow(f, id, |crumbs|, n - |crumbs|);
      AboveNext(f, id, |crumbs|);
      if n > |crumbs| {
        SomeBelow(f, id, |crumbs| + 1, n - |crumbs| - 1);
      }
      assert false;
    }
    assert CrumbAt(f, id, crumbs[|crumbs| - 1 - n], |crumbs| - 1 - (|crumbs| - 1 - n));
  }

  /**
   * Down and up agree: within depth 64 a folder is among the descendants of `top`
   * exactly when `top` stands on its path above it.
   */
  lemma DownAndUpAgree(f: Forest, top: string, d: string)
    requires Acyclic(f) && d in f && top in f && d != top
    requires forall n: nat :: IsAbove(f, d, n, top) ==> n < MAX_DEPTH
    ensures d in Descendants(f, top) <==> OnPath(f, d, top)
  {
    if d in Descendants(f, top) {
      var n: nat :| 0 < n && IsAbove(f, d, n, top);
      assert n < MAX_DEPTH;
    }
    if OnPath(f, d, top) {
      var n: nat :| n < MAX_DEPTH && IsAbove(f, d, n, top);
      assert n == 0 ==> Above(f, d, n) == Some(d);
    }
  }
}
