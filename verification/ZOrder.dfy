/**
 Model of the z-order walk in scripts/indicator-acceptance-probe.py
 (`evaluate_sample`, lines 1067-1116): do the visible indicator windows form one
 chain of `GetWindow(GW_HWNDNEXT)` successors that ends at the target window?
 */
module ZOrder {
  import opened Common

  type Hwnd = string

  /** A visible indicator window. `next` is `None` when no z-order record is available;
      otherwise it holds the record's `next_hwnd`, which may itself be absent. */
  datatype Window = Window(hwnd: Hwnd, next: Option<Option<Hwnd>>)

  // ---------- specification ----------

  function Hwnds(windows: seq<Window>): (r: set<Hwnd>) {
    set w | w in windows :: w.hwnd
  }

  predicate DistinctHwnds(windows: seq<Window>) {
    forall i, j :: 0 <= i < j < |windows| ==> windows[i].hwnd != windows[j].hwnd
  }

  /** The available record of window `h` names `next` as the window below it. */
  predicate Follows(windows: seq<Window>, h: Hwnd, next: Hwnd) {
    Window(h, Some(Some(next))) in windows
  }

  predicate NoRepetition(order: seq<Hwnd>) {
    forall i, j :: 0 <= i < j < |order| ==> order[i] != order[j]
  }

  /** What lies directly below `order[i]` when `end` lies below the whole of `order`. */
  function Below(order: seq<Hwnd>, i: int, end: Hwnd): Hwnd
    requires 0 <= i < |order|
  {
    if i == |order| - 1 then end else order[i + 1]
  }

  /** `order` lists every visible window once, each directly above its successor,
      and the last one directly above the target. */
  predicate IsBlock(windows: seq<Window>, target: Hwnd, order: seq<Hwnd>) {
    && order != []
    && |order| == |windows|
    && NoRepetition(order)
    && (set h | h in order) == Hwnds(windows)
    && (forall i {:trigger Below(order, i, target)} :: 0 <= i < |order| ==> Follows(windows, order[i], Below(order, i, target)))
  }

  // ---------- the dictionaries and sets the program builds ----------

  /** `successor_by_hwnd`: a later window overrides an earlier one with the same handle. */
  function SuccessorByHwnd(windows: seq<Window>): (m: map<Hwnd, Option<Hwnd>>)
    ensures forall h :: h in m ==> Window(h, Some(m[h])) in windows
    ensures forall w :: w in windows && w.next.Some? ==> w.hwnd in m
    ensures |m| <= |windows|
    ensures |m| == |windows| ==> DistinctHwnds(windows) && m.Keys == Hwnds(windows)
  {
    if windows == [] then map[]
    else
      var init := windows[..|windows| - 1];
      var last := windows[|windows| - 1];
      assert windows == init + [last];
      var m := SuccessorByHwnd(init);
      if last.next.None? then m else m[last.hwnd := last.next.value]
  }

  lemma {:induction false} HwndCount(windows: seq<Window>)
    ensures |Hwnds(windows)| <= |windows|
    ensures |Hwnds(windows)| == |windows| <==> DistinctHwnds(windows)
  {
    if windows != [] {
      var init := windows[..|windows| - 1];
      var last := windows[|windows| - 1];
      assert windows == init + [last];
      assert Hwnds(windows) == Hwnds(init) + {last.hwnd};
      HwndCount(init);
      if DistinctHwnds(windows) {
        assert last.hwnd !in Hwnds(init);
      } else if DistinctHwnds(init) {
        assert exists i :: 0 <= i < |init| && init[i].hwnd == last.hwnd;
      }
    }
  }

  type Dictionary = map<Hwnd, Option<Hwnd>>

  /** `top_candidates`: visible windows no visible window points at. */
  function TopCandidates(visible: set<Hwnd>, successor: Dictionary): set<Hwnd> {
    visible - set h | h in successor && successor[h].Some? && successor[h].value in visible :: successor[h].value
  }

  /** The keys whose successor is the target; the program counts these values. */
  function AboveTarget(successor: Dictionary, target: Hwnd): set<Hwnd> {
    set h | h in successor && successor[h] == Some(target)
  }

  /** Following `successor` from the first window of `path` runs through `path` and arrives at `end`. */
  predicate IsPath(successor: Dictionary, path: seq<Hwnd>, end: Hwnd) {
    && NoRepetition(path)
    && (forall i {:trigger Below(path, i, end)} :: 0 <= i < |path| ==>
          path[i] in successor && successor[path[i]] == Some(Below(path, i, end)))
  }

  /** `order` is a path through all of `visible` to the target. */
  predicate IsChain(visible: set<Hwnd>, successor: Dictionary, target: Hwnd, order: seq<Hwnd>) {
    order != [] && (set h | h in order) == visible && IsPath(successor, order, target)
  }

  /**
     `target_scoped_z_order_block`. The documentation promises a chain that ends at
     the target; the program also answers false when the target itself is one of
     the visible indicator windows, and that is the only difference.
   */
  method TargetScopedBlock(windows: seq<Window>, target: Hwnd) returns (block: bool, walked: seq<Hwnd>)
    ensures block ==> IsBlock(windows, target, walked)
    ensures block <==> target !in Hwnds(windows) && exists order :: IsBlock(windows, target, order)
  {
    var visible, successor := Hwnds(windows), SuccessorByHwnd(windows);
    block, walked := false, [];
    if windows != [] && |visible| == |windows| && |successor| == |windows| {
      block, walked := Walk(visible, successor, target);
    }
    if block { BlockIsChain(windows, target, walked); }
    forall order | target !in visible && IsBlock(windows, target, order) ensures block {
      BlockIsChain(windows, target, order);
    }
  }

  /** The remaining guards, on the dictionary alone. */
  method Walk(visible: set<Hwnd>, successor: Dictionary, target: Hwnd) returns (block: bool, walked: seq<Hwnd>)
    requires successor.Keys == visible
    ensures block ==> IsChain(visible, successor, target, walked)
    ensures block <==> target !in visible && exists order :: IsChain(visible, successor, target, order)
  {
    ghost var order := [];
    if target !in visible && exists order :: IsChain(visible, successor, target, order) {
      order :| IsChain(visible, successor, target, order);
      ChainIsAdmissible(visible, successor, target, order);
    }
    var top := TopCandidates(visible, successor);
    block, walked := false, [];
    if && (forall h :: h in successor ==>
             successor[h].Some? && (successor[h].value in visible || successor[h].value == target))
       && |top| == 1
       && |AboveTarget(successor, target)| == 1 {
      var start :| start in top;
      Singleton(top, start);
      block, walked := WalkFrom(visible, successor, target, start, order);
      if block { TopIsNotTarget(visible, successor, target, walked); }
    }
  }

  /** The loop. `order` is the chain to be found, if there is one, and `[]` otherwise. */
  method WalkFrom(visible: set<Hwnd>, successor: Dictionary, target: Hwnd, start: Hwnd, ghost order: seq<Hwnd>)
    returns (block: bool, walked: seq<Hwnd>)
    requires successor.Keys == visible && forall h :: h in successor ==> successor[h].Some?
    requires order != [] ==> target !in visible && IsChain(visible, successor, target, order) && order[0] == start
    ensures block ==> IsChain(visible, successor, target, walked) && walked[0] == start && target !in walked[1..]
    ensures order != [] ==> block
  {
    block, walked := false, [];
    var current, seen := start, {};
    while current in successor && current !in seen
      invariant forall h :: h in seen <==> h in walked
      invariant seen <= visible
      invariant IsPath(successor, walked, current)
      invariant walked == [] ==> current == start
      invariant walked != [] ==> walked[0] == start && current != target && target !in walked[1..]
      invariant order != [] ==> walked + [current] <= order
      decreases visible - seen
    {
      var next := successor[current].value;
      PathGrows(successor, walked, current, next);
      if order != [] { ChainStep(visible, successor, target, order, walked, current); }
      seen := seen + {current};
      walked := walked + [current];
      if next == target {
        block := seen == visible;
        assert (set h | h in walked) == seen;
        return;
      }
      current := next;
    }
    if order != [] { ChainIsWalked(visible, successor, target, order, walked, current); }
  }

  // ---------- why the walk decides the question ----------

  lemma Singleton<T>(s: set<T>, a: T)
    requires |s| == 1 && a in s
    ensures s == {a}
  {
    assert |s - {a}| == 0;
  }

  lemma {:induction false} OrderCount(order: seq<Hwnd>)
    requires NoRepetition(order)
    ensures |set h | h in order| == |order|
  {
    if order != [] {
      var init := order[..|order| - 1];
      assert order == init + [order[|order| - 1]];
      assert (set h | h in order) == (set h | h in init) + {order[|order| - 1]};
      OrderCount(init);
    }
  }

  /** With distinct handles a record is what the dictionary holds, and nothing else. */
  lemma FollowsIsSuccessor(windows: seq<Window>, h: Hwnd, next: Hwnd)
    requires DistinctHwnds(windows)
    ensures Follows(windows, h, next) <==> h in SuccessorByHwnd(windows) && SuccessorByHwnd(windows)[h] == Some(next)
  {
    var m := SuccessorByHwnd(windows);
    if Follows(windows, h, next) {
      assert Window(h, Some(Some(next))).hwnd in m;
      var i :| 0 <= i < |windows| && windows[i] == Window(h, Some(Some(next)));
      var j :| 0 <= j < |windows| && windows[j] == Window(h, Some(m[h]));
    }
  }

  lemma BlockIsChain(windows: seq<Window>, target: Hwnd, order: seq<Hwnd>)
    ensures IsBlock(windows, target, order) <==>
      && |Hwnds(windows)| == |SuccessorByHwnd(windows)| == |windows|
      && IsChain(Hwnds(windows), SuccessorByHwnd(windows), target, order)
  {
    var m := SuccessorByHwnd(windows);
    HwndCount(windows);
    if NoRepetition(order) { OrderCount(order); }
    if DistinctHwnds(windows) {
      forall i | 0 <= i < |order|
        ensures Follows(windows, order[i], Below(order, i, target)) <==>
                order[i] in m && m[order[i]] == Some(Below(order, i, target))
      {
        FollowsIsSuccessor(windows, order[i], Below(order, i, target));
      }
      if IsBlock(windows, target, order) { BlockCoversKeys(windows, target, order); }
    }
  }

  lemma BlockCoversKeys(windows: seq<Window>, target: Hwnd, order: seq<Hwnd>)
    requires DistinctHwnds(windows) && IsBlock(windows, target, order)
    ensures |SuccessorByHwnd(windows)| == |Hwnds(windows)|
  {
    var m := SuccessorByHwnd(windows);
    forall h | h in Hwnds(windows) ensures h in m {
      assert h in set h | h in order;
      var i :| 0 <= i < |order| && order[i] == h;
      FollowsIsSuccessor(windows, h, Below(order, i, target));
    }
    assert m.Keys == Hwnds(windows) && |m| == |m.Keys|;
  }

  lemma ChainIsAdmissible(visible: set<Hwnd>, successor: Dictionary, target: Hwnd, order: seq<Hwnd>)
    requires successor.Keys == visible && target !in visible
    requires IsChain(visible, successor, target, order)
    ensures forall h :: h in successor ==>
      successor[h].Some? && (successor[h].value in visible || successor[h].value == target)
    ensures TopCandidates(visible, successor) == {order[0]}
    ensures AboveTarget(successor, target) == {order[|order| - 1]}
  {
    forall h | h in visible
      ensures successor[h].Some? && (successor[h].value in visible || successor[h].value == target)
      ensures successor[h] != Some(order[0])
      ensures successor[h] == Some(target) <==> h == order[|order| - 1]
    {
      assert h in set h | h in order;
      var i :| 0 <= i < |order| && order[i] == h;
      assert successor[h] == Some(Below(order, i, target));
      assert i < |order| - 1 ==> order[i + 1] in set h | h in order;
      assert order[0] in set h | h in order;
    }
    forall h | h in visible && h != order[0] ensures h !in TopCandidates(visible, successor) {
      assert h in set h | h in order;
      var i :| 0 < i < |order| && order[i] == h;
      assert Below(order, i - 1, target) == h && order[i - 1] in successor;
    }
    assert order[0] in (set h | h in order) && order[|order| - 1] in set h | h in order;
  }

  /** One step along a chain: the target comes exactly at its end. */
  lemma ChainStep(visible: set<Hwnd>, successor: Dictionary, target: Hwnd, order: seq<Hwnd>, walked: seq<Hwnd>, current: Hwnd)
    requires target !in visible && IsChain(visible, successor, target, order)
    requires walked + [current] <= order
    ensures current in successor && successor[current].Some?
    ensures successor[current] == Some(target) ==> walked + [current] == order
    ensures successor[current] != Some(target) ==> walked + [current] + [successor[current].value] <= order
  {
    var at := |walked|;
    assert order[at] == (walked + [current])[at] == current;
    var next := Below(order, at, target);
    assert current in successor && successor[current] == Some(next);
    if at < |order| - 1 { assert order[at + 1] in set h | h in order; }
  }

  lemma PathGrows(successor: Dictionary, path: seq<Hwnd>, end: Hwnd, next: Hwnd)
    requires IsPath(successor, path, end)
    requires end !in path && end in successor && successor[end] == Some(next)
    ensures IsPath(successor, path + [end], next)
  {
    var longer := path + [end];
    forall i | 0 <= i < |longer|
      ensures longer[i] in successor && successor[longer[i]] == Some(Below(longer, i, next))
    {
      assert i < |path| ==> Below(longer, i, next) == Below(path, i, end);
    }
  }

  /** A walk that starts at a top candidate and ends above the target never met the target. */
  lemma TopIsNotTarget(visible: set<Hwnd>, successor: Dictionary, target: Hwnd, walked: seq<Hwnd>)
    requires IsPath(successor, walked, target) && walked != []
    requires walked[0] in TopCandidates(visible, successor)
    requires target !in walked[1..]
    ensures target !in walked
  {
    var last := walked[|walked| - 1];
    assert Below(walked, |walked| - 1, target) == target;
    assert last in successor && successor[last] == Some(target);
  }

  /** A walk along a chain cannot get stuck before the end of the chain. */
  lemma ChainIsWalked(visible: set<Hwnd>, successor: Dictionary, target: Hwnd, order: seq<Hwnd>, walked: seq<Hwnd>, current: Hwnd)
    requires IsChain(visible, successor, target, order)
    requires walked + [current] <= order
    ensures current in successor && current !in walked
  {
    assert order[|walked|] == (walked + [current])[|walked|] == current;
    var next := Below(order, |walked|, target);
    assert current in successor && successor[current] == Some(next);
    forall i | 0 <= i < |walked| ensures walked[i] != current {
      assert order[i] == (walked + [current])[i];
    }
  }

  // ---------- consequences ----------

  /** The order a block is in is unique. */
  lemma {:induction false} ChainIsUnique(visible: set<Hwnd>, successor: Dictionary, target: Hwnd, a: seq<Hwnd>, b: seq<Hwnd>, k: nat)
    requires target !in visible && successor.Keys == visible
    requires IsChain(visible, successor, target, a) && IsChain(visible, successor, target, b)
    requires k <= |a| && k <= |b|
    ensures a[..k] == b[..k]
    decreases k
  {
    if k == 1 {
      ChainIsAdmissible(visible, successor, target, a);
      ChainIsAdmissible(visible, successor, target, b);
      assert a[0] in {b[0]};
    } else if k > 1 {
      ChainIsUnique(visible, successor, target, a, b, k - 1);
      assert a[..k] == a[..k - 1] + [a[k - 1]] && b[..k] == b[..k - 1] + [b[k - 1]];
      assert a[k - 2] == a[..k - 1][k - 2] == b[..k - 1][k - 2] == b[k - 2];
      assert Below(a, k - 2, target) == a[k - 1] && Below(b, k - 2, target) == b[k - 1];
    }
  }

  lemma BlockOrderIsUnique(windows: seq<Window>, target: Hwnd, a: seq<Hwnd>, b: seq<Hwnd>)
    requires target !in Hwnds(windows)
    requires IsBlock(windows, target, a) && IsBlock(windows, target, b)
    ensures a == b
  {
    BlockIsChain(windows, target, a);
    BlockIsChain(windows, target, b);
    ChainIsUnique(Hwnds(windows), SuccessorByHwnd(windows), target, a, b, |a|);
    assert a == a[..|a|] && b == b[..|a|];
  }

  /** A set of windows closed under "next window", such as a detached cycle, rules a block out. */
  lemma DetachedCycleIsRejected(windows: seq<Window>, target: Hwnd, cycle: set<Hwnd>, order: seq<Hwnd>)
    requires target !in Hwnds(windows)
    requires cycle != {} && cycle <= Hwnds(windows)
    requires forall h, next :: h in cycle && Follows(windows, h, next) ==> next in cycle
    ensures !IsBlock(windows, target, order)
  {
    if IsBlock(windows, target, order) {
      var h :| h in cycle;
      assert h in set h | h in order;
      var k :| 0 <= k < |order| && order[k] == h;
      ClosedReachesEnd(windows, target, cycle, order, k);
    }
  }

  lemma {:induction false} ClosedReachesEnd(windows: seq<Window>, target: Hwnd, cycle: set<Hwnd>, order: seq<Hwnd>, k: nat)
    requires IsBlock(windows, target, order)
    requires forall h, next :: h in cycle && Follows(windows, h, next) ==> next in cycle
    requires k < |order| && order[k] in cycle
    ensures target in cycle
    decreases |order| - k
  {
    assert Follows(windows, order[k], Below(order, k, target));
    if k < |order| - 1 { ClosedReachesEnd(windows, target, cycle, order, k + 1); }
  }

  /** The documented promise alone is not what the program decides: here is a chain over all
      visible windows that ends at the target, and no window is a top candidate. */
  lemma VisibleTargetIsRefused()
    ensures var windows := [Window("t", Some(Some("a"))), Window("a", Some(Some("t")))];
            && IsBlock(windows, "t", ["t", "a"])
            && TopCandidates(Hwnds(windows), SuccessorByHwnd(windows)) == {}
  {
    var windows := [Window("t", Some(Some("a"))), Window("a", Some(Some("t")))];
    var order := ["t", "a"];
    assert windows[0] in windows && windows[1] in windows;
    assert order[0] in order && order[1] in order;
    assert Hwnds(windows) == {"t", "a"};
    assert (set h | h in order) == {"t", "a"};
    assert Below(order, 0, "t") == "a" && Below(order, 1, "t") == "t";
    FollowsIsSuccessor(windows, "t", "a");
    FollowsIsSuccessor(windows, "a", "t");
  }
}
