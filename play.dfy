/** The older object tree of `src/play.ts`: each object keeps its children
    in `objects`, a `life` counter in seconds and a list of countdowns
    (`_scheds`), each holding a callback to run once its time is up.

    As in `Scenes`, the objects are kept by identity in one map, with ids
    handed out in increasing order. The hooks `_first_update`, `_update`,
    `_pre_draw`, `_draw` and `_post_draw` and the scheduled callbacks belong
    to subclasses that are not part of this model; each call of one is
    recorded as an `Event`, and callbacks are named by numbers. */
module LegacyPlay {
  import opened Common
  import Time

  /** One entry of `_scheds`: the time left and the callback. */
  datatype Entry = Entry(n: real, callback: nat)

  /** The fields of one object; `parent` is unset on an object nobody made. */
  datatype Node = Node(x: real, y: real, life: real, objects: seq<nat>, scheds: seq<Entry>,
                       parent: Option<nat>, visible: bool)

  /** Every object, and the next free identity. */
  datatype Tree = Tree(nodes: map<nat, Node>, next: nat)

  /** The hook calls and callbacks an `update()` or `draw()` makes, in order. */
  datatype Event =
    | FirstUpdate(id: nat)
    | Fire(callback: nat)
    | Update(id: nat)
    | PreDraw(id: nat)
    | Draw(id: nat)
    | PostDraw(id: nat)

  /** Parents are older than their children, every listed child points
      back at the object listing it, and no child is listed twice. */
  predicate Valid(t: Tree)
  {
    forall i {:trigger NodeOk(t, i)} :: i in t.nodes ==> NodeOk(t, i)
  }

  predicate NodeOk(t: Tree, i: nat)
    requires i in t.nodes
  {
    var n := t.nodes[i];
    i < t.next &&
    (n.parent.Some? ==> n.parent.value in t.nodes && n.parent.value < i) &&
    (forall c :: c in n.objects ==> c in t.nodes && i < c && t.nodes[c].parent == Some(i)) &&
    Distinct(n.objects)
  }

  /** The same objects with the same links: only `life` and `_scheds`
      may differ. */
  predicate SameShape(t: Tree, r: Tree)
  {
    t.next == r.next && t.nodes.Keys == r.nodes.Keys &&
    forall i :: i in t.nodes ==> r.nodes[i] == t.nodes[i].(life := r.nodes[i].life, scheds := r.nodes[i].scheds)
  }

  lemma BelowNext(t: Tree)
    requires Valid(t)
    ensures forall i :: i in t.nodes ==> i < t.next
  {
    forall i | i in t.nodes
      ensures i < t.next
    {
      assert NodeOk(t, i);
    }
  }

  lemma SameShapeKeepsValid(t: Tree, r: Tree)
    requires Valid(t) && SameShape(t, r)
    ensures Valid(r)
  {
    forall i | i in r.nodes
      ensures NodeOk(r, i)
    {
      assert NodeOk(t, i);
    }
  }

  lemma SameShapeTrans(t1: Tree, t2: Tree, t3: Tree)
    requires SameShape(t1, t2) && SameShape(t2, t3)
    ensures SameShape(t1, t3)
  {
  }

  // ----------------------------------------------------------- countdown

  /** `_scheds.map(([n, p]) => [n - dt, p])`. */
  function Decremented(s: seq<Entry>): (r: seq<Entry>)
    ensures |r| == |s|
  {
    if s == [] then [] else Decremented(s[..|s| - 1]) + [Entry(s[|s| - 1].n - Time.Dt, s[|s| - 1].callback)]
  }

  /** The callbacks the `map` runs: those whose time minus `dt` is below 0. */
  function Fired(s: seq<Entry>): seq<nat>
  {
    if s == [] then []
    else Fired(s[..|s| - 1]) + (if s[|s| - 1].n - Time.Dt < 0.0 then [s[|s| - 1].callback] else [])
  }

  /** `filter(_ => _[0] > 0)`. */
  function Positive(s: seq<Entry>): seq<Entry>
  {
    if s == [] then []
    else Positive(s[..|s| - 1]) + (if s[|s| - 1].n > 0.0 then [s[|s| - 1]] else [])
  }

  /** What survives one update. */
  function Kept(s: seq<Entry>): seq<Entry>
  {
    Positive(Decremented(s))
  }

  /** An entry's callback runs on this update exactly when less than `dt`
      is left; every entry that runs is one of those. */
  lemma {:induction false} FiredIffDue(s: seq<Entry>)
    ensures forall i :: 0 <= i < |s| && s[i].n < Time.Dt ==> s[i].callback in Fired(s)
    ensures forall cb :: cb in Fired(s) ==> exists i :: 0 <= i < |s| && s[i].callback == cb && s[i].n < Time.Dt
    ensures |Fired(s)| <= |s|
  {
    if s != [] {
      var init := s[..|s| - 1];
      var last := s[|s| - 1];
      FiredIffDue(init);
      var tail := if last.n - Time.Dt < 0.0 then [last.callback] else [];
      assert Fired(s) == Fired(init) + tail;
      forall i | 0 <= i < |s| && s[i].n < Time.Dt
        ensures s[i].callback in Fired(s)
      {
        if i < |init| {
          assert init[i] == s[i];
        }
      }
      forall cb | cb in Fired(s)
        ensures exists i :: 0 <= i < |s| && s[i].callback == cb && s[i].n < Time.Dt
      {
        if cb in Fired(init) {
          var i :| 0 <= i < |init| && init[i].callback == cb && init[i].n < Time.Dt;
          assert s[i] == init[i];
        } else {
          assert s[|s| - 1].callback == cb;
        }
      }
    }
  }

  /** Each entry's time goes down by `dt`, in place. */
  lemma {:induction false} DecrementedAt(s: seq<Entry>)
    ensures forall i :: 0 <= i < |s| ==> Decremented(s)[i] == Entry(s[i].n - Time.Dt, s[i].callback)
  {
    if s != [] {
      var init := s[..|s| - 1];
      DecrementedAt(init);
      assert forall i :: 0 <= i < |init| ==> s[i] == init[i];
    }
  }

  /** The `filter` keeps exactly the entries with time left, and never
      grows the list. */
  lemma {:induction false} PositiveKeepsTimeLeft(s: seq<Entry>)
    ensures forall e :: e in Positive(s) <==> e in s && e.n > 0.0
    ensures |Positive(s)| <= |s|
  {
    if s != [] {
      var init := s[..|s| - 1];
      PositiveKeepsTimeLeft(init);
      assert s == init + [s[|s| - 1]];
    }
  }

  /** An entry stays, with `dt` less, exactly when more than `dt` was left;
      everything kept has time left. */
  lemma KeptIffMoreThanDt(s: seq<Entry>)
    ensures forall i :: 0 <= i < |s| && s[i].n > Time.Dt ==> Entry(s[i].n - Time.Dt, s[i].callback) in Kept(s)
    ensures forall e :: e in Kept(s) ==> e.n > 0.0 && Entry(e.n + Time.Dt, e.callback) in s
    ensures |Kept(s)| <= |s|
  {
    var d := Decremented(s);
    DecrementedAt(s);
    PositiveKeepsTimeLeft(d);
    forall i | 0 <= i < |s| && s[i].n > Time.Dt
      ensures Entry(s[i].n - Time.Dt, s[i].callback) in Kept(s)
    {
      assert d[i] in d;
    }
    forall e | e in Kept(s)
      ensures e.n > 0.0 && Entry(e.n + Time.Dt, e.callback) in s
    {
      var i :| 0 <= i < |d| && d[i] == e;
      assert s[i] == Entry(e.n + Time.Dt, e.callback);
    }
  }

  /** An entry with exactly `dt` left is dropped without its callback
      running: `n - dt < 0` fails and so does `n - dt > 0`. */
  lemma ExactlyDtIsDropped(cb: nat)
    ensures Fired([Entry(Time.Dt, cb)]) == []
    ensures Kept([Entry(Time.Dt, cb)]) == []
  {
    SingleEntry(Entry(Time.Dt, cb));
  }

  /** One entry on its own: it runs when less than `dt` is left, stays
      with `dt` less when more was left, and otherwise vanishes. */
  lemma SingleEntry(e: Entry)
    ensures Fired([e]) == if e.n < Time.Dt then [e.callback] else []
    ensures Kept([e]) == if e.n > Time.Dt then [Entry(e.n - Time.Dt, e.callback)] else []
  {
    assert [e][..0] == [];
    var d := Entry(e.n - Time.Dt, e.callback);
    assert Decremented([e]) == [d];
    assert [d][..0] == [];
    assert Kept([e]) == Positive([d]) == Positive([]) + (if d.n > 0.0 then [d] else []);
  }

  /** Countdowns work entry by entry and keep their order: the list split
      anywhere gives the two halves' callbacks and survivors, one after the
      other. */
  lemma CountdownSplits(a: seq<Entry>, b: seq<Entry>)
    ensures Fired(a + b) == Fired(a) + Fired(b)
    ensures Kept(a + b) == Kept(a) + Kept(b)
  {
    FiredSplits(a, b);
    DecrementedSplits(a, b);
    PositiveSplits(Decremented(a), Decremented(b));
  }

  lemma {:induction false} FiredSplits(a: seq<Entry>, b: seq<Entry>)
    ensures Fired(a + b) == Fired(a) + Fired(b)
    decreases |b|
  {
    if b == [] {
      assert a + b == a;
    } else {
      var n := |b| - 1;
      assert (a + b)[..|a + b| - 1] == a + b[..n];
      assert (a + b)[|a + b| - 1] == b[n];
      FiredSplits(a, b[..n]);
    }
  }

  lemma {:induction false} PositiveSplits(a: seq<Entry>, b: seq<Entry>)
    ensures Positive(a + b) == Positive(a) + Positive(b)
    decreases |b|
  {
    if b == [] {
      assert a + b == a;
    } else {
      var n := |b| - 1;
      assert (a + b)[..|a + b| - 1] == a + b[..n];
      assert (a + b)[|a + b| - 1] == b[n];
      PositiveSplits(a, b[..n]);
    }
  }

  lemma {:induction false} DecrementedSplits(a: seq<Entry>, b: seq<Entry>)
    ensures Decremented(a + b) == Decremented(a) + Decremented(b)
    decreases |b|
  {
    if b == [] {
      assert a + b == a;
    } else {
      var n := |b| - 1;
      assert (a + b)[..|a + b| - 1] == a + b[..n];
      assert (a + b)[|a + b| - 1] == b[n];
      DecrementedSplits(a, b[..n]);
    }
  }

  // -------------------------------------------------------------- update

  /** A tree and the events so far. */
  datatype Pass = Pass(t: Tree, events: seq<Event>)

  /** The callbacks as events. */
  function Fires(cbs: seq<nat>): (r: seq<Event>)
    ensures |r| == |cbs| && forall i :: 0 <= i < |cbs| ==> r[i] == Fire(cbs[i])
  {
    seq(|cbs|, i requires 0 <= i < |cbs| => Fire(cbs[i]))
  }

  /** `update()` on object `id`: `_first_update` when `life` is 0, the
      children in order, `life += dt`, the countdowns, `_update`. */
  function UpdateNode(t: Tree, id: nat): (r: Pass)
    requires Valid(t) && id in t.nodes
    ensures SameShape(t, r.t)
    decreases t.next - id, 1
  {
    assert NodeOk(t, id);
    var first := if t.nodes[id].life == 0.0 then [FirstUpdate(id)] else [];
    var c := UpdateAll(t, id, t.nodes[id].objects);
    var n := c.t.nodes[id];
    Pass(c.t.(nodes := c.t.nodes[id := n.(life := n.life + Time.Dt, scheds := Kept(n.scheds))]),
         first + c.events + Fires(Fired(n.scheds)) + [Update(id)])
  }

  /** `UpdateNode` in the order the method takes its steps. */
  lemma UpdateNodeSteps(t: Tree, id: nat, first: seq<Event>, c: Pass)
    requires Valid(t) && id in t.nodes && id < t.next
    requires forall k :: k in t.nodes[id].objects ==> k in t.nodes && id < k
    requires first == if t.nodes[id].life == 0.0 then [FirstUpdate(id)] else []
    requires c == UpdateAll(t, id, t.nodes[id].objects)
    ensures id in c.t.nodes && Valid(c.t) && SameShape(t, c.t)
    ensures var n := c.t.nodes[id];
            var r := Tree(c.t.nodes[id := n.(life := n.life + Time.Dt, scheds := Kept(n.scheds))], c.t.next);
            && UpdateNode(t, id) == Pass(r, first + c.events + Fires(Fired(n.scheds)) + [Update(id)])
            && Valid(r) && SameShape(t, r)
  {
    SameShapeKeepsValid(t, c.t);
    SameShapeKeepsValid(t, UpdateNode(t, id).t);
  }

  /** Every object of `cs` exists and is younger than `id`. */
  predicate ChildrenAbove(t: Tree, id: nat, cs: seq<nat>)
  {
    forall c :: c in cs ==> c in t.nodes && id < c
  }

  /** `this.objects.forEach(_ => _.update())`; updates do not change any
      list of children, so the loop walks the list as it was. */
  function UpdateAll(t: Tree, id: nat, cs: seq<nat>): (r: Pass)
    requires Valid(t) && id in t.nodes && id < t.next
    requires ChildrenAbove(t, id, cs)
    ensures SameShape(t, r.t)
    decreases t.next - id, 0, |cs|
  {
    if cs == [] then Pass(t, [])
    else
      assert NodeOk(t, cs[0]);
      var r1 := UpdateNode(t, cs[0]);
      SameShapeKeepsValid(t, r1.t);
      assert forall c :: c in cs[1..] ==> c in cs;
      var r2 := UpdateAll(r1.t, id, cs[1..]);
      SameShapeTrans(t, r1.t, r2.t);
      Pass(r2.t, r1.events + r2.events)
  }

  /** `UpdateAll` on the suffix from `k`: the object at `k` first, then
      the rest on the tree it leaves. */
  lemma UpdateAllUnfolds(t: Tree, id: nat, cs: seq<nat>, k: nat)
    requires Valid(t) && id in t.nodes && id < t.next
    requires k < |cs| && ChildrenAbove(t, id, cs[k..])
    ensures cs[k] in t.nodes
    ensures var r1 := UpdateNode(t, cs[k]);
            && Valid(r1.t) && SameShape(t, r1.t) && id in r1.t.nodes && id < r1.t.next
            && ChildrenAbove(r1.t, id, cs[k + 1..])
            && UpdateAll(t, id, cs[k..]) == (var r2 := UpdateAll(r1.t, id, cs[k + 1..]); Pass(r2.t, r1.events + r2.events))
  {
    var s := cs[k..];
    assert s != [] && s[0] == cs[k] && s[1..] == cs[k + 1..];
    assert cs[k] in s;
    var r1 := UpdateNode(t, cs[k]);
    SameShapeKeepsValid(t, r1.t);
    forall c | c in s[1..]
      ensures c in r1.t.nodes && id < c
    {
      assert c in s;
    }
    var r2 := UpdateAll(r1.t, id, s[1..]);
    assert UpdateAll(t, id, s) == Pass(r2.t, r1.events + r2.events);
  }

  /** The state of the loop over the children of `id` after `k` of them:
      what is left to do, `UpdateAll` on the rest, completes `goal`. */
  predicate ChildrenLoop(t0: Tree, goal: Pass, id: nat, cs: seq<nat>, k: nat, inner: seq<Event>, t: Tree)
  {
    && k <= |cs| && Valid(t) && t.next == t0.next && id in t.nodes && id < t.next
    && ChildrenAbove(t, id, cs[k..])
    && goal == (var r := UpdateAll(t, id, cs[k..]); Pass(r.t, inner + r.events))
  }

  lemma ChildrenLoopNext(t0: Tree, goal: Pass, id: nat, cs: seq<nat>, k: nat, inner: seq<Event>, t: Tree)
    requires ChildrenLoop(t0, goal, id, cs, k, inner, t) && k < |cs|
    ensures Valid(t) && cs[k] in t.nodes && id < cs[k] < t.next && t.next == t0.next
  {
    assert cs[k] in cs[k..];
    assert NodeOk(t, cs[k]);
  }

  /** Updating the `k`-th child moves the loop on by one. */
  lemma ChildrenLoopStep(t0: Tree, goal: Pass, id: nat, cs: seq<nat>, k: nat, inner: seq<Event>,
                         t: Tree, e: seq<Event>, t': Tree)
    requires ChildrenLoop(t0, goal, id, cs, k, inner, t) && k < |cs|
    requires cs[k] in t.nodes && Pass(t', e) == UpdateNode(t, cs[k])
    ensures ChildrenLoop(t0, goal, id, cs, k + 1, inner + e, t')
  {
    UpdateAllUnfolds(t, id, cs, k);
    var rest := UpdateAll(t', id, cs[k + 1..]);
    Regroup(inner, e, rest.events);
  }

  lemma ChildrenLoopEnd(t0: Tree, goal: Pass, id: nat, cs: seq<nat>, k: nat, inner: seq<Event>, t: Tree)
    requires ChildrenLoop(t0, goal, id, cs, k, inner, t) && k >= |cs|
    ensures Valid(t) && Pass(t, inner) == goal
  {
    assert cs[k..] == [] && inner + [] == inner;
  }

  /** Every object older than `bound` is unchanged. */
  predicate OlderUnchanged(t: Tree, r: Tree, bound: nat)
  {
    forall j :: j in t.nodes && j < bound ==> j in r.nodes && r.nodes[j] == t.nodes[j]
  }

  /** An update reaches only its object and younger ones. */
  lemma {:induction false} UpdateLeavesOlder(t: Tree, id: nat)
    requires Valid(t) && id in t.nodes
    ensures OlderUnchanged(t, UpdateNode(t, id).t, id)
    decreases t.next - id, 1
  {
    assert NodeOk(t, id);
    UpdateAllLeavesOlder(t, id, t.nodes[id].objects);
  }

  lemma {:induction false} UpdateAllLeavesOlder(t: Tree, id: nat, cs: seq<nat>)
    requires Valid(t) && id in t.nodes && id < t.next
    requires forall c :: c in cs ==> c in t.nodes && id < c
    ensures OlderUnchanged(t, UpdateAll(t, id, cs).t, id + 1)
    decreases t.next - id, 0, |cs|
  {
    if cs != [] {
      assert NodeOk(t, cs[0]);
      var r1 := UpdateNode(t, cs[0]);
      UpdateLeavesOlder(t, cs[0]);
      SameShapeKeepsValid(t, r1.t);
      assert forall c :: c in cs[1..] ==> c in cs;
      UpdateAllLeavesOlder(r1.t, id, cs[1..]);
    }
  }

  /** `update()` moves the object's own `life` on by exactly `dt` and
      counts its own countdowns down once. */
  lemma UpdateTicksOnce(t: Tree, id: nat)
    requires Valid(t) && id in t.nodes
    ensures var n := t.nodes[id];
            && UpdateNode(t, id).t.nodes[id].life == n.life + Time.Dt
            && UpdateNode(t, id).t.nodes[id].scheds == Kept(n.scheds)
  {
    assert NodeOk(t, id);
    var n := t.nodes[id];
    var first := if n.life == 0.0 then [FirstUpdate(id)] else [];
    var c := UpdateAll(t, id, n.objects);
    UpdateNodeSteps(t, id, first, c);
    UpdateAllLeavesOlder(t, id, n.objects);
    assert c.t.nodes[id] == n;
  }

  /** `_first_update` runs first exactly when `life` was 0, and `_update`
      runs last. */
  lemma UpdateEventsBracket(t: Tree, id: nat)
    requires Valid(t) && id in t.nodes
    ensures var e := UpdateNode(t, id).events;
            && |e| > 0 && e[|e| - 1] == Update(id)
            && (e[0] == FirstUpdate(id) <==> t.nodes[id].life == 0.0)
  {
    assert NodeOk(t, id);
    var n := t.nodes[id];
    var first := if n.life == 0.0 then [FirstUpdate(id)] else [];
    var c := UpdateAll(t, id, n.objects);
    UpdateNodeSteps(t, id, first, c);
    UpdateEventsNeverFirst(t, id, n.objects);
    var fires := Fires(Fired(c.t.nodes[id].scheds));
    var mid := c.events + fires;
    if mid != [] {
      if c.events != [] {
        assert mid[0] == c.events[0];
      } else {
        assert mid[0] == fires[0];
      }
    }
    Bracketed(first, mid, id);
    Regroup(first, c.events, fires);
    assert UpdateNode(t, id).events == first + mid + [Update(id)];
  }

  /** `_first_update` (or nothing), then events that do not start with
      it, then `_update`. */
  lemma Bracketed(first: seq<Event>, mid: seq<Event>, id: nat)
    requires first == [] || first == [FirstUpdate(id)]
    requires mid != [] ==> mid[0] != FirstUpdate(id)
    ensures var e := first + mid + [Update(id)];
            && |e| > 0 && e[|e| - 1] == Update(id)
            && (e[0] == FirstUpdate(id) <==> first != [])
  {
    var e := first + mid + [Update(id)];
    if first == [] {
      if mid != [] {
        assert e[0] == mid[0];
      }
    }
  }

  /** Events of the children never announce the parent. */
  lemma UpdateEventsNeverFirst(t: Tree, id: nat, cs: seq<nat>)
    requires Valid(t) && id in t.nodes && id < t.next
    requires forall c :: c in cs ==> c in t.nodes && id < c
    ensures FirstUpdate(id) !in UpdateAll(t, id, cs).events
    ensures UpdateAll(t, id, cs).events != [] ==> UpdateAll(t, id, cs).events[0] != FirstUpdate(id)
  {
    UpdateAllEventsYounger(t, id, cs);
  }

  /** Every event of the list that names an object names `bound` or a
      younger one. */
  predicate AboutYounger(events: seq<Event>, bound: nat)
  {
    forall e :: e in events && !e.Fire? ==> e.id >= bound
  }

  lemma {:induction false} UpdateEventsYounger(t: Tree, id: nat)
    requires Valid(t) && id in t.nodes
    ensures AboutYounger(UpdateNode(t, id).events, id)
    decreases t.next - id, 1
  {
    assert NodeOk(t, id);
    UpdateAllEventsYounger(t, id, t.nodes[id].objects);
  }

  lemma {:induction false} UpdateAllEventsYounger(t: Tree, id: nat, cs: seq<nat>)
    requires Valid(t) && id in t.nodes && id < t.next
    requires forall c :: c in cs ==> c in t.nodes && id < c
    ensures AboutYounger(UpdateAll(t, id, cs).events, id + 1)
    decreases t.next - id, 0, |cs|
  {
    if cs != [] {
      assert NodeOk(t, cs[0]);
      var r1 := UpdateNode(t, cs[0]);
      UpdateEventsYounger(t, cs[0]);
      SameShapeKeepsValid(t, r1.t);
      assert forall c :: c in cs[1..] ==> c in cs;
      UpdateAllEventsYounger(r1.t, id, cs[1..]);
    }
  }

  /** The objects `update()` reaches from `id`, children's subtrees first,
      in list order, then the object itself. */
  function Order(t: Tree, id: nat): (r: seq<nat>)
    requires Valid(t) && id in t.nodes
    decreases t.next - id, 1
  {
    assert NodeOk(t, id);
    OrderAll(t, id, t.nodes[id].objects) + [id]
  }

  function OrderAll(t: Tree, id: nat, cs: seq<nat>): seq<nat>
    requires Valid(t) && id in t.nodes && id < t.next
    requires forall c :: c in cs ==> c in t.nodes && id < c
    decreases t.next - id, 0, |cs|
  {
    if cs == [] then []
    else
      assert NodeOk(t, cs[0]);
      assert forall c :: c in cs[1..] ==> c in cs;
      Order(t, cs[0]) + OrderAll(t, id, cs[1..])
  }

  /** The objects whose `_update` ran, in order. */
  function Updates(events: seq<Event>): seq<nat>
  {
    if events == [] then []
    else (if events[0].Update? then [events[0].id] else []) + Updates(events[1..])
  }

  lemma {:induction false} UpdatesAppend(a: seq<Event>, b: seq<Event>)
    ensures Updates(a + b) == Updates(a) + Updates(b)
  {
    if a != [] {
      assert (a + b)[1..] == a[1..] + b;
      UpdatesAppend(a[1..], b);
    } else {
      assert a + b == b;
    }
  }

  lemma {:induction false} NoUpdates(events: seq<Event>)
    requires forall e :: e in events ==> !e.Update?
    ensures Updates(events) == []
  {
    if events != [] {
      assert forall e :: e in events[1..] ==> e in events;
      NoUpdates(events[1..]);
    }
  }

  lemma {:induction false} OrderSameShape(t: Tree, r: Tree, id: nat)
    requires Valid(t) && SameShape(t, r) && id in t.nodes
    ensures Valid(r) && Order(r, id) == Order(t, id)
    decreases t.next - id, 1
  {
    SameShapeKeepsValid(t, r);
    assert NodeOk(t, id);
    OrderAllSameShape(t, r, id, t.nodes[id].objects);
  }

  lemma {:induction false} OrderAllSameShape(t: Tree, r: Tree, id: nat, cs: seq<nat>)
    requires Valid(t) && SameShape(t, r) && id in t.nodes && id < t.next
    requires forall c :: c in cs ==> c in t.nodes && id < c
    ensures Valid(r) && OrderAll(r, id, cs) == OrderAll(t, id, cs)
    decreases t.next - id, 0, |cs|
  {
    SameShapeKeepsValid(t, r);
    if cs != [] {
      assert NodeOk(t, cs[0]);
      OrderSameShape(t, r, cs[0]);
      assert forall c :: c in cs[1..] ==> c in cs;
      OrderAllSameShape(t, r, id, cs[1..]);
    }
  }

  /** `_update` runs once for every object of the subtree, each child's
      subtree before the next child's and all of them before the object
      itself. */
  lemma {:induction false} UpdateFollowsOrder(t: Tree, id: nat)
    requires Valid(t) && id in t.nodes
    ensures Updates(UpdateNode(t, id).events) == Order(t, id)
    decreases t.next - id, 1
  {
    assert NodeOk(t, id);
    var n := t.nodes[id];
    var first := if n.life == 0.0 then [FirstUpdate(id)] else [];
    var c := UpdateAll(t, id, n.objects);
    var fires := Fires(Fired(c.t.nodes[id].scheds));
    assert UpdateNode(t, id).events == first + c.events + fires + [Update(id)];
    UpdateAllFollowsOrder(t, id, n.objects);
    UpdatesOfStep(first, c.events, fires, id);
  }

  lemma UpdatesOfStep(first: seq<Event>, inner: seq<Event>, fires: seq<Event>, id: nat)
    requires forall e :: e in first ==> !e.Update?
    requires forall e :: e in fires ==> !e.Update?
    ensures Updates(first + inner + fires + [Update(id)]) == Updates(inner) + [id]
  {
    NoUpdates(first);
    NoUpdates(fires);
    UpdatesAppend(first, inner);
    UpdatesAppend(first + inner, fires);
    UpdatesAppend(first + inner + fires, [Update(id)]);
    assert Updates([Update(id)]) == [id];
  }

  lemma {:induction false} UpdateAllFollowsOrder(t: Tree, id: nat, cs: seq<nat>)
    requires Valid(t) && id in t.nodes && id < t.next
    requires forall c :: c in cs ==> c in t.nodes && id < c
    ensures Updates(UpdateAll(t, id, cs).events) == OrderAll(t, id, cs)
    decreases t.next - id, 0, |cs|
  {
    if cs != [] {
      assert NodeOk(t, cs[0]);
      var r1 := UpdateNode(t, cs[0]);
      UpdateFollowsOrder(t, cs[0]);
      SameShapeKeepsValid(t, r1.t);
      assert forall c :: c in cs[1..] ==> c in cs;
      UpdateAllFollowsOrder(r1.t, id, cs[1..]);
      OrderAllSameShape(t, r1.t, id, cs[1..]);
      UpdatesAppend(r1.events, UpdateAll(r1.t, id, cs[1..]).events);
    }
  }

  // ---------------------------------------------------------------- draw

  /** `draw()` on object `id`: nothing when it is not `visible`; otherwise
      `_pre_draw`, the children in order, `_draw`, `_post_draw`. */
  function DrawTrace(t: Tree, id: nat): (r: seq<Event>)
    requires Valid(t) && id in t.nodes
    decreases t.next - id, 1
  {
    assert NodeOk(t, id);
    if !t.nodes[id].visible then []
    else [PreDraw(id)] + DrawAll(t, id, t.nodes[id].objects) + [Draw(id), PostDraw(id)]
  }

  function DrawAll(t: Tree, id: nat, cs: seq<nat>): seq<Event>
    requires Valid(t) && id in t.nodes && id < t.next
    requires forall c :: c in cs ==> c in t.nodes && id < c
    decreases t.next - id, 0, |cs|
  {
    if cs == [] then []
    else
      assert NodeOk(t, cs[0]);
      assert forall c :: c in cs[1..] ==> c in cs;
      DrawTrace(t, cs[0]) + DrawAll(t, id, cs[1..])
  }

  /** `DrawAll` on the suffix from `k`: the object at `k` first. */
  lemma DrawAllUnfolds(t: Tree, id: nat, cs: seq<nat>, k: nat)
    requires Valid(t) && id in t.nodes && id < t.next
    requires k < |cs| && ChildrenAbove(t, id, cs[k..])
    ensures cs[k] in t.nodes && ChildrenAbove(t, id, cs[k + 1..])
    ensures DrawAll(t, id, cs[k..]) == DrawTrace(t, cs[k]) + DrawAll(t, id, cs[k + 1..])
  {
    var s := cs[k..];
    assert s != [] && s[0] == cs[k] && s[1..] == cs[k + 1..];
    assert cs[k] in s;
    forall c | c in s[1..]
      ensures c in t.nodes && id < c
    {
      assert c in s;
    }
  }

  /** Only visible objects draw, and an object draws only inside the draw
      of its parent: hiding an object hides its whole subtree. */
  lemma {:induction false} DrawnMeansVisibleChain(t: Tree, id: nat)
    requires Valid(t) && id in t.nodes
    ensures forall j :: Draw(j) in DrawTrace(t, id) ==>
              && j in t.nodes && id <= j && t.nodes[j].visible
              && (j != id ==> t.nodes[j].parent.Some? && Draw(t.nodes[j].parent.value) in DrawTrace(t, id))
    decreases t.next - id, 1
  {
    assert NodeOk(t, id);
    if t.nodes[id].visible {
      DrawAllMeansVisibleChain(t, id, t.nodes[id].objects);
    }
  }

  lemma {:induction false} DrawAllMeansVisibleChain(t: Tree, id: nat, cs: seq<nat>)
    requires Valid(t) && id in t.nodes && id < t.next
    requires forall c :: c in cs ==> c in t.nodes && id < c && t.nodes[c].parent == Some(id)
    ensures forall j :: Draw(j) in DrawAll(t, id, cs) ==>
              && j in t.nodes && id < j && t.nodes[j].visible
              && t.nodes[j].parent.Some?
              && (t.nodes[j].parent.value == id || Draw(t.nodes[j].parent.value) in DrawAll(t, id, cs))
    decreases t.next - id, 0, |cs|
  {
    if cs != [] {
      assert NodeOk(t, cs[0]);
      DrawnMeansVisibleChain(t, cs[0]);
      assert forall c :: c in cs[1..] ==> c in cs;
      DrawAllMeansVisibleChain(t, id, cs[1..]);
    }
  }

  // ------------------------------------------------------- make, remove

  /** `make(ctor, data, x, y)` on `id`: a new object with the next
      identity, `life` 0 (from `init()`), no children, no countdowns,
      visible, with `parent` set to `id`, pushed at the end of `id`'s
      `objects`. */
  function MakeChild(t: Tree, id: nat, x: real, y: real): (r: Tree)
    requires Valid(t) && id in t.nodes
    ensures Valid(r) && r.next == t.next + 1 && r.nodes.Keys == t.nodes.Keys + {t.next}
    ensures r.nodes[id].objects == t.nodes[id].objects + [t.next]
    ensures r.nodes[t.next] == Node(x, y, 0.0, [], [], Some(id), true)
    ensures forall i :: i in t.nodes && i != id ==> r.nodes[i] == t.nodes[i]
  {
    assert NodeOk(t, id);
    var n := t.nodes[id];
    var c := t.next;
    assert c !in t.nodes by {
      BelowNext(t);
    }
    var r := Tree(t.nodes[c := Node(x, y, 0.0, [], [], Some(id), true)][id := n.(objects := n.objects + [c])], c + 1);
    assert Distinct(n.objects + [c]) by {
      forall k | 0 <= k < |n.objects| ensures n.objects[k] != c {
        assert n.objects[k] in n.objects;
      }
      DistinctSnoc(n.objects, c);
    }
    forall i | i in r.nodes
      ensures NodeOk(r, i)
    {
      if i != c {
        assert NodeOk(t, i);
      }
    }
    r
  }

  /** `remove(p)` on `owner` once `p` is given: the first place `p` holds
      in `objects` is spliced out; `None` is the `'noscene rm'` throw when
      `p` is not a child. */
  function RemoveChild(t: Tree, owner: nat, p: nat): (r: Option<Tree>)
    requires Valid(t) && owner in t.nodes
    ensures r.Some? <==> p in t.nodes[owner].objects
    ensures r.Some? ==> Valid(r.value) && r.value.next == t.next && r.value.nodes.Keys == t.nodes.Keys
    ensures r.Some? ==> forall i :: i in t.nodes && i != owner ==> r.value.nodes[i] == t.nodes[i]
  {
    assert NodeOk(t, owner);
    var n := t.nodes[owner];
    if p !in n.objects then None
    else
      var rest := SpliceOne(n.objects, IndexOf(n.objects, p));
      SpliceOneKeepsDistinct(n.objects, IndexOf(n.objects, p));
      SpliceOneShrinks(n.objects, IndexOf(n.objects, p));
      var r := t.(nodes := t.nodes[owner := n.(objects := rest)]);
      assert forall i :: i in r.nodes ==> NodeOk(r, i) by {
        forall i | i in r.nodes
          ensures NodeOk(r, i)
        {
          assert NodeOk(t, i);
        }
      }
      Some(r)
  }

  /** `remove(p)` on `id`: without `p` the object asks its parent to
      remove it, and an object without a parent does nothing. */
  function Removed(t: Tree, id: nat, p: Option<nat>): (r: Option<Tree>)
    requires Valid(t) && id in t.nodes
  {
    assert NodeOk(t, id);
    match p
    case Some(c) => RemoveChild(t, id, c)
    case None =>
      if t.nodes[id].parent.None? then Some(t)
      else RemoveChild(t, t.nodes[id].parent.value, id)
  }

  /** Removing drops exactly the one child: the others keep their order,
      and the child is no longer listed. */
  lemma RemoveChildDropsIt(t: Tree, owner: nat, p: nat)
    requires Valid(t) && owner in t.nodes && p in t.nodes[owner].objects
    ensures var s := t.nodes[owner].objects;
            var i := IndexOf(s, p);
            && 0 <= i < |s| && s[i] == p
            && RemoveChild(t, owner, p).value.nodes[owner] == t.nodes[owner].(objects := s[..i] + s[i + 1..])
            && p !in RemoveChild(t, owner, p).value.nodes[owner].objects
            && multiset(RemoveChild(t, owner, p).value.nodes[owner].objects) == multiset(s) - multiset{p}
  {
    assert NodeOk(t, owner);
    var s := t.nodes[owner].objects;
    SpliceIndexOfRemoves(s, p);
    var i := IndexOf(s, p);
    SpliceOneKeepsDistinct(s, i);
  }

  /** `remove()` undoes `make()`: the parent's children are back as they
      were (the removed object's own record stays, unreachable). */
  lemma RemoveUndoesMake(t: Tree, id: nat, x: real, y: real)
    requires Valid(t) && id in t.nodes
    ensures var m := MakeChild(t, id, x, y);
            && Removed(m, t.next, None).Some?
            && Removed(m, t.next, None).value.nodes[id] == t.nodes[id]
  {
    var m := MakeChild(t, id, x, y);
    var s := t.nodes[id].objects;
    assert m.nodes[id].objects == s + [t.next];
    assert NodeOk(m, id);
    IndexOfDistinct(s + [t.next], |s|);
    assert (s + [t.next])[..|s|] == s;
    RemoveChildDropsIt(m, id, t.next);
  }

  lemma Regroup<T>(a: seq<T>, b: seq<T>, c: seq<T>)
    ensures a + (b + c) == (a + b) + c
  {
  }

  lemma DistinctSnoc<T>(a: seq<T>, x: T)
    requires Distinct(a) && forall k :: 0 <= k < |a| ==> a[k] != x
    ensures Distinct(a + [x])
  {
  }

  /** The `map` then the `filter` over `_scheds`: the callbacks that
      run, and the countdowns that stay. */
  method Countdown(s: seq<Entry>) returns (fired: seq<nat>, kept: seq<Entry>)
    ensures fired == Fired(s) && kept == Kept(s)
  {
    var mapped: seq<Entry> := [];
    fired := [];
    var i := 0;
    while i < |s|
      invariant 0 <= i <= |s|
      invariant mapped == Decremented(s[..i])
      invariant fired == Fired(s[..i])
    {
      assert s[..i + 1][..i] == s[..i];
      if s[i].n - Time.Dt < 0.0 {
        fired := fired + [s[i].callback];
      }
      mapped := mapped + [Entry(s[i].n - Time.Dt, s[i].callback)];
      i := i + 1;
    }
    assert s[..|s|] == s;
    kept := [];
    var j := 0;
    while j < |mapped|
      invariant 0 <= j <= |mapped|
      invariant kept == Positive(mapped[..j])
    {
      assert mapped[..j + 1][..j] == mapped[..j];
      if mapped[j].n > 0.0 {
        kept := kept + [mapped[j]];
      }
      j := j + 1;
    }
    assert mapped[..|mapped|] == mapped;
  }

  // ------------------------------------------------------- the objects

  /** Every `Play` object of a game, by identity. */
  class Plays {
    var nodes: map<nat, Node>
    var next: nat

    function State(): Tree
      reads this
    {
      Tree(nodes, next)
    }

    /** A root object, `new ctor(g, x, y).init()`: identity 0, `life` 0,
        no parent. */
    constructor(x: real, y: real)
      ensures State() == Tree(map[0 := Node(x, y, 0.0, [], [], None, true)], 1)
      ensures Valid(State())
    {
      nodes := map[0 := Node(x, y, 0.0, [], [], None, true)];
      next := 1;
      new;
      assert NodeOk(State(), 0);
    }

    /** `sched(n, p)`: the countdown goes at the end of `_scheds`. */
    method Sched(id: nat, n: real, callback: nat)
      requires Valid(State()) && id in nodes
      modifies this
      ensures nodes == old(nodes)[id := old(nodes)[id].(scheds := old(nodes)[id].scheds + [Entry(n, callback)])]
      ensures next == old(next)
      ensures SameShape(old(State()), State()) && Valid(State())
    {
      nodes := nodes[id := nodes[id].(scheds := nodes[id].scheds + [Entry(n, callback)])];
      SameShapeKeepsValid(old(State()), State());
    }

    /** `make(ctor, data, x = 0, y = x)` on `id`. */
    method Make(id: nat, x: real := 0.0, y: real := x) returns (child: nat)
      requires Valid(State()) && id in nodes
      modifies this
      ensures child == old(next) && State() == MakeChild(old(State()), id, x, y)
    {
      child := next;
      var res := Node(x, y, 0.0, [], [], Some(id), true);
      nodes := nodes[child := res];
      next := next + 1;
      nodes := nodes[id := nodes[id].(objects := nodes[id].objects + [child])];
    }

    /** `remove(p)` on `id`; `ok` is false where the source throws
        `'noscene rm'`, and then nothing has changed. */
    method Remove(id: nat, p: Option<nat>) returns (ok: bool)
      requires Valid(State()) && id in nodes
      modifies this
      ensures ok == Removed(old(State()), id, p).Some?
      ensures ok ==> State() == Removed(old(State()), id, p).value
      ensures !ok ==> State() == old(State())
      decreases if p.None? then 1 else 0
    {
      assert NodeOk(State(), id);
      if p.None? {
        if nodes[id].parent.None? {
          return true;
        }
        ok := Remove(nodes[id].parent.value, Some(id));
        return;
      }
      var i := IndexOf(nodes[id].objects, p.value);
      if i == -1 {
        return false;
      }
      nodes := nodes[id := nodes[id].(objects := SpliceOne(nodes[id].objects, i))];
      ok := true;
    }

    /** `update()` on `id`, with the hook calls and callbacks it makes. */
    method Update(id: nat) returns (events: seq<Event>)
      requires Valid(State()) && id in nodes
      modifies this
      ensures Pass(State(), events) == UpdateNode(old(State()), id)
      decreases next - id, 2
    {
      ghost var t0 := State();
      assert NodeOk(t0, id);
      var first: seq<Event> := [];
      if nodes[id].life == 0.0 {
        first := [FirstUpdate(id)];
      }
      var inner := UpdateChildren(id);
      ghost var mid := State();
      var n := nodes[id];
      var fired, kept := Countdown(n.scheds);
      UpdateNodeSteps(t0, id, first, Pass(mid, inner));
      nodes := nodes[id := n.(life := n.life + Time.Dt, scheds := kept)];
      events := first + inner + Fires(fired) + [Event.Update(id)];
      assert State() == Tree(mid.nodes[id := n.(life := n.life + Time.Dt, scheds := Kept(n.scheds))], mid.next);
    }

    /** `this.objects.forEach(_ => _.update())` on `id`. */
    method UpdateChildren(id: nat) returns (inner: seq<Event>)
      requires Valid(State()) && id in nodes && id < next
      requires ChildrenAbove(State(), id, nodes[id].objects)
      modifies this
      ensures Pass(State(), inner) == UpdateAll(old(State()), id, old(nodes[id].objects))
      decreases next - id, 1
    {
      ghost var t0 := State();
      var cs := nodes[id].objects;
      ghost var goal := UpdateAll(t0, id, cs);
      assert cs[0..] == cs;
      inner := [];
      var k := 0;
      while k < |cs|
        invariant ChildrenLoop(t0, goal, id, cs, k, inner, State())
      {
        var e := UpdateChildAt(t0, goal, id, cs, k, inner);
        inner := inner + e;
        k := k + 1;
      }
      ChildrenLoopEnd(t0, goal, id, cs, k, inner, State());
    }

    /** One turn of the loop over the children: updates `cs[k]`. */
    method UpdateChildAt(ghost t0: Tree, ghost goal: Pass, id: nat, cs: seq<nat>, k: nat, ghost inner: seq<Event>)
        returns (e: seq<Event>)
      requires k < |cs| && ChildrenLoop(t0, goal, id, cs, k, inner, State())
      modifies this
      ensures ChildrenLoop(t0, goal, id, cs, k + 1, inner + e, State())
      decreases next - id, 0
    {
      ghost var before := State();
      ChildrenLoopNext(t0, goal, id, cs, k, inner, before);
      e := Update(cs[k]);
      ChildrenLoopStep(t0, goal, id, cs, k, inner, before, e, State());
    }

    /** `draw()` on `id`, with the hook calls it makes; drawing changes
        no object. */
    method Draw(id: nat) returns (events: seq<Event>)
      requires Valid(State()) && id in nodes
      ensures events == DrawTrace(State(), id)
      decreases next - id
    {
      assert NodeOk(State(), id);
      if !nodes[id].visible {
        return [];
      }
      ghost var t := State();
      var cs := nodes[id].objects;
      var inner: seq<Event> := [];
      var k := 0;
      assert cs[0..] == cs;
      while k < |cs|
        invariant 0 <= k <= |cs|
        invariant ChildrenAbove(t, id, cs[k..])
        invariant DrawAll(t, id, cs) == inner + DrawAll(t, id, cs[k..])
      {
        DrawAllUnfolds(t, id, cs, k);
        var e := Draw(cs[k]);
        Regroup(inner, e, DrawAll(t, id, cs[k + 1..]));
        inner := inner + e;
        k := k + 1;
      }
      assert cs[k..] == [] && inner + [] == inner;
      events := [PreDraw(id)] + inner + [Event.Draw(id), PostDraw(id)];
    }
  }
}
