/** The objects of `src/scenes2.ts` as they run: one `PlayState` holding the
    array of lerpables, together with the fields of every `Play` object
    that uses it, updated in place by the registry calls, the setters,
    `make`, `integrate`, `render` and `remove`.

    Each method is proved to leave the state that the corresponding function
    of `Scenes`, `SceneMake`, `SceneRender` or `SceneRemove` computes, so
    what is proved about those functions holds of the objects. */
module SceneGraph {
  import opened Common
  import opened Lerpables
  import opened Graphics
  import opened Scenes
  import SceneMake
  import SceneRender
  import SceneRemove

  class PlayState {
    /** `PlayState.lerpables`. */
    var lerpables: seq<Lerpable>
    /** The fields of every `Play` object built on this state, by identity. */
    var plays: map<nat, Play>
    /** The identity the next object gets. */
    var next: nat
    /** The elements drawn by each `g.draw()` so far (what went to the GPU). */
    ghost var drawn: seq<seq<DrawElement>>
    /** The `Graphics` every object draws with. */
    const g: Graphics

    /** The registry and the tree, as a value. */
    function State(): World
      reads this
    {
      World(lerpables, plays, next)
    }

    /** A state with an empty registry and no objects. */
    constructor (g: Graphics)
      ensures State() == World([], map[], 0) && drawn == [] && this.g == g
    {
      lerpables, plays, next := [], map[], 0;
      drawn := [];
      this.g := g;
    }

    // ---------------------------------------------------------- registry

    /** `register_lerpable(l)`. */
    method RegisterLerpable(l: Lerpable) returns (n: nat)
      modifies this
      ensures (State(), n) == Register(old(State()), l)
      ensures drawn == old(drawn)
    {
      n := |lerpables|;
      lerpables := lerpables + [l];
    }

    /** `deregister_lerpable(n)`: `splice(n, 1)`, which removes nothing when
        `n` is past the end. */
    method DeregisterLerpable(n: nat)
      modifies this
      ensures State() == Deregister(old(State()), n)
      ensures drawn == old(drawn)
    {
      if n < |lerpables| {
        lerpables := lerpables[..n] + lerpables[n + 1..];
      }
    }

    /** `get_lerpable(n)`: `undefined` past the end. */
    method GetLerpable(n: nat) returns (l: Option<Lerpable>)
      ensures l.Some? <==> n < |lerpables|
      ensures l.Some? ==> l.value == lerpables[n]
    {
      if n < |lerpables| {
        l := Some(lerpables[n]);
      } else {
        l := None;
      }
    }

    /** The setters `transform`, `rotation` and `scale` of object `id`. */
    method SetHandle(id: nat, slot: Slot, l: Lerpable)
      requires id in plays
      modifies this
      ensures State() == Scenes.SetHandle(old(State()), id, slot, l)
      ensures drawn == old(drawn)
    {
      DeregisterLerpable(Handle(plays[id], slot));
      var n := RegisterLerpable(l);
      plays := plays[id := WithHandle(plays[id], slot, n)];
    }

    // -------------------------------------------------------------- make

    /** `make(ctor, {}, t, r, s)` on `parent` (or, with no parent, the root
        scene): construct, run the `_init` hook, then push onto the parent's
        children. `None` when the call throws, which happens when the atlas
        pool runs dry. */
    method Make(parent: Option<nat>, spec: SceneMake.Spec) returns (id: Option<nat>)
      requires parent.Some? ==> parent.value in plays
      modifies this, g
      ensures SceneMake.Made(State(), g.availableTextureSpaces, id) ==
              SceneMake.Make(old(State()), old(g.availableTextureSpaces), parent, spec)
      ensures drawn == old(drawn) && g.els == old(g.els)
      decreases SceneMake.Rank(spec.kind), 1
    {
      ghost var w0, pool0 := State(), g.availableTextureSpaces;
      ghost var full := SceneMake.Make(w0, pool0, parent, spec);
      var made := Construct(parent, spec);
      ghost var c := SceneMake.Construct(w0, pool0, parent, spec);
      if made.None? {
        return None;
      }
      var me := made.value;
      ghost var m := SceneMake.Hooks(c.w, c.pool, me, spec.kind, SceneMake.InitSpecs(spec.kind));
      assert full == if m.id.None? || parent.None? then SceneMake.Made(m.w, m.pool, if m.id.None? then None else Some(me))
                     else SceneMake.Made(m.w.(plays := m.w.plays[parent.value := SceneMake.Attached(m.w.plays[parent.value], me)]), m.pool, Some(me));
      var ok := Init(me, spec.kind);
      if !ok {
        return None;
      }
      if parent.Some? {
        plays := plays[parent.value := SceneMake.Attached(plays[parent.value], me)];
      }
      id := Some(me);
    }

    /** `new ctor(g, ps, t, r, s)`, which registers life, transform,
        rotation and scale, then `res.parent = parent` and the borrow at the
        start of `init()`; `None` when the pool is empty and the
        destructuring of `undefined` throws. */
    method Construct(parent: Option<nat>, spec: SceneMake.Spec) returns (id: Option<nat>)
      modifies this, g
      ensures SceneMake.Made(State(), g.availableTextureSpaces, id) ==
              SceneMake.Construct(old(State()), old(g.availableTextureSpaces), parent, spec)
      ensures drawn == old(drawn) && g.els == old(g.els)
    {
      var life := RegisterLerpable(Life(Zero3));
      var transform := RegisterLerpable(RigidAt(spec.t));
      var rotation := RegisterLerpable(RigidAt(spec.r));
      var scale := RegisterLerpable(RigidAt(spec.s));
      var cell := g.BorrowTextureSpace();
      if cell.None? {
        return None;
      }
      var me := next;
      plays := plays[me := Play(spec.kind, if parent.Some? then parent.value else me, [],
                                life, transform, rotation, scale, cell.value.x, cell.value.y)];
      next := next + 1;
      id := Some(me);
    }

    /** The `_init` hooks: a `Scene` makes a `Gold` and a `OneG`, a `OneG`
        makes a `OneBot`, the others make nothing. `false` when a `make`
        throws, which ends the hook. */
    method Init(me: nat, kind: Kind) returns (ok: bool)
      requires me in plays
      modifies this, g
      ensures var m := SceneMake.Hooks(old(State()), old(g.availableTextureSpaces), me, kind, SceneMake.InitSpecs(kind));
              State() == m.w && g.availableTextureSpaces == m.pool && (ok <==> m.id.Some?)
      ensures drawn == old(drawn) && g.els == old(g.els)
      decreases SceneMake.Rank(kind), 0
    {
      var specs := SceneMake.InitSpecs(kind);
      assert |specs| <= 2;
      ghost var w0, pool0 := State(), g.availableTextureSpaces;
      if specs == [] {
        return true;
      }
      var first := Make(Some(me), specs[0]);
      ghost var m1 := SceneMake.Make(w0, pool0, Some(me), specs[0]);
      assert SceneMake.Hooks(w0, pool0, me, kind, specs) ==
             if m1.id.None? then m1 else SceneMake.Hooks(m1.w, m1.pool, me, kind, specs[1..]);
      if first.None? {
        return false;
      }
      if |specs| == 1 {
        assert specs[1..] == [];
        return true;
      }
      var second := Make(Some(me), specs[1]);
      ghost var m2 := SceneMake.Make(m1.w, m1.pool, Some(me), specs[1]);
      assert specs[1..][0] == specs[1] && specs[1..][1..] == [];
      assert SceneMake.Hooks(m1.w, m1.pool, me, kind, specs[1..]) ==
             if m2.id.None? then m2 else SceneMake.Hooks(m2.w, m2.pool, me, kind, []);
      ok := second.Some?;
    }

    // --------------------------------------------------------- integrate

    /** `integrate()` on object `id`: the children in order, then the
        object's own `_update()`. The result lists the objects whose
        `_update` ran, in the order they ran. */
    method Integrate(id: nat) returns (order: seq<nat>)
      requires Valid(State()) && id in plays
      ensures order == PostOrder(State(), id)
      decreases next - id
    {
      assert NodeOk(State(), id);
      var cs := plays[id].children;
      order := [];
      var k := 0;
      while k < |cs|
        invariant 0 <= k <= |cs|
        invariant forall c :: c in cs[..k] ==> c in cs
        invariant order == PostOrderAll(State(), id, cs[..k])
      {
        assert NodeOk(State(), cs[k]);
        var sub := Integrate(cs[k]);
        assert cs[..k + 1] == cs[..k] + [cs[k]];
        PostOrderAllSnoc(State(), id, cs[..k], cs[k]);
        order := order + sub;
        k := k + 1;
      }
      assert cs[..k] == cs;
      order := order + [id];
    }

    // ------------------------------------------------------------ render

    /** What a render pass sees: the registry and the tree, the elements
        pending in `g`, and what each `g.draw()` has drawn. */
    ghost function Pass(): SceneRender.Frame
      reads this, g
    {
      SceneRender.Frame(State(), g.els, drawn)
    }

    /** `render()` on object `id`; `false` when it throws. `transform` is
        `Billboard.unit.transform`, which gives every element four vertices
        and two triangles. */
    method Render(id: nat, transform: Placement -> Billboard) returns (ok: bool)
      requires Valid(State()) && id in plays
      requires forall m :: QuadShaped(transform(m))
      modifies this, g
      ensures SceneRender.Rendered(Pass(), ok) == SceneRender.RenderNode(old(Pass()), id)
      ensures g.availableTextureSpaces == old(g.availableTextureSpaces)
      decreases next - id, 1
    {
      ghost var f0 := Pass();
      assert NodeOk(State(), id);
      var cs := plays[id].children;
      var k := 0;
      while k < |cs|
        invariant 0 <= k <= |cs|
        invariant Valid(State()) && plays == f0.w.plays && next == f0.w.next
        invariant g.availableTextureSpaces == old(g.availableTextureSpaces)
        invariant forall c :: c in cs[k..] ==> c in cs
        invariant SceneRender.RenderAll(f0, id, cs) == SceneRender.RenderAll(Pass(), id, cs[k..])
      {
        ghost var before := Pass();
        assert cs[k..][0] == cs[k] && cs[k..][1..] == cs[k + 1..];
        assert NodeOk(State(), cs[k]);
        var sub := Render(cs[k], transform);
        if !sub {
          return false;
        }
        ValidIgnoresLerpables(f0.w, lerpables);
        k := k + 1;
      }
      ValidIgnoresLerpables(f0.w, lerpables);
      ok := DrawSelf(id, transform);
    }

    /** The rest of `render()` once the children are done: `_draw` (only
        `Gold`'s touches the registry), `push_el` at the world position and
        rotation (the scale is read, and dropped), and `_post_draw`, where a
        `Scene` calls `g.draw()`. */
    method DrawSelf(id: nat, transform: Placement -> Billboard) returns (ok: bool)
      requires Valid(State()) && id in plays
      requires forall m :: QuadShaped(transform(m))
      modifies this, g
      ensures SceneRender.Rendered(Pass(), ok) == SceneRender.DrawSelf(old(Pass()), id)
      ensures g.availableTextureSpaces == old(g.availableTextureSpaces)
    {
      ghost var w0 := State();
      var p := plays[id];
      if p.kind == Gold {
        if p.life >= |lerpables| || p.rotation >= |lerpables| || lerpables[p.rotation].Life? {
          return false;
        }
        var rot := lerpables[p.rotation];
        lerpables := lerpables[p.rotation := rot.(position := rot.position.(z := 0.1))];
      }
      ValidIgnoresLerpables(w0, lerpables);
      var pos := WorldPosition(State(), id);
      var rot := WorldRotation(State(), id);
      var scale := GetLerpable(p.scale);
      if pos.None? || rot.None? || scale.None? {
        return false;
      }
      g.PushEl(rot.value.x, rot.value.y, rot.value.z, pos.value.x, pos.value.y, pos.value.z, p.tx, p.ty);
      if p.kind == Scene {
        drawn := drawn + [g.els];
        var vertices, indices := g.Draw(transform);
      }
      ok := true;
    }

    // ------------------------------------------------------------ remove

    /** `remove()` on object `id`: deregister the transform and the life
        handles, remove the children with `forEach`, splice the object out
        of its parent's list. */
    method Remove(id: nat)
      requires Valid(State()) && id in plays
      modifies this
      ensures State() == SceneRemove.RemoveNode(old(State()), id)
      ensures drawn == old(drawn)
      decreases next - id, 2
    {
      ghost var w := State();
      var p := plays[id];
      DeregisterLerpable(p.transform);
      DeregisterLerpable(p.life);
      assert State() == SceneRemove.Strip(w, id);
      RemoveChildren(id, |p.children|);
      SceneRemove.RemoveNodeSteps(w, id, State());
      var q := plays[id].parent;
      var sib := plays[q].children;
      plays := plays[q := plays[q].(children := SpliceOne(sib, IndexOf(sib, id)))];
    }

    /** `this.children.forEach(_ => _.remove())` on `id`, over an array that
        had `len` entries when the loop started. */
    method RemoveChildren(id: nat, len: nat)
      requires Valid(State()) && id in plays
      modifies this
      ensures State() == SceneRemove.RemoveChildren(old(State()), id, 0, len)
      ensures drawn == old(drawn)
      decreases next - id, 1
    {
      ghost var w1 := State();
      var k := 0;
      while k < len
        invariant 0 <= k <= len && drawn == old(drawn)
        invariant SceneRemove.RemoveLoop(w1, id, k, len, State())
        decreases len - k
      {
        ghost var before := State();
        RemoveChildAt(id, k);
        SceneRemove.RemoveLoopStep(w1, id, k, len, before, State());
        k := k + 1;
      }
      SceneRemove.RemoveLoopEnd(w1, id, k, len, State());
    }

    /** One visit of that `forEach`: `remove()` on the child now at
        position `k`, when the array still has one there. */
    method RemoveChildAt(id: nat, k: nat)
      requires Valid(State()) && id in plays
      modifies this
      ensures var cs := old(plays[id].children);
              && (k < |cs| ==> cs[k] in old(plays))
              && State() == if k < |cs| then SceneRemove.RemoveNode(old(State()), cs[k]) else old(State())
      ensures drawn == old(drawn)
      decreases next - id, 0
    {
      var cs := plays[id].children;
      if k < |cs| {
        assert NodeOk(State(), id);
        assert NodeOk(State(), cs[k]);
        Remove(cs[k]);
      }
    }
  }

  /** Integrating one more child appends that child's subtree. */
  lemma {:induction false} PostOrderAllSnoc(w: World, id: nat, pre: seq<nat>, c: nat)
    requires Valid(w) && id in w.plays && id < w.next
    requires forall x :: x in pre ==> x in w.plays && id < x
    requires c in w.plays && id < c
    ensures PostOrderAll(w, id, pre + [c]) == PostOrderAll(w, id, pre) + PostOrder(w, c)
    decreases |pre|
  {
    if pre == [] {
      assert pre + [c] == [c] && [c][1..] == [];
    } else {
      var tail := pre[1..];
      assert (pre + [c])[1..] == tail + [c];
      assert forall x :: x in tail ==> x in pre;
      PostOrderAllSnoc(w, id, tail, c);
    }
  }



}
