/** `render()` of `src/scenes2.ts`: each object renders its children first,
    then runs its `_draw` hook and pushes one draw element placed at its
    world position and rotation, with its atlas cell; the `Scene` then
    hands the collected elements to `g.draw()`.

    `render()` also calls `g.begin_rect(tx, ty)` and `g.end_rect()`, which
    `Graphics` does not define: as written, the first of them throws. The
    render below treats both as calls without effect on what is modelled,
    and `RenderAsWritten` shows what the code does instead. */
module SceneRender {
  import opened Common
  import opened Lerpables
  import opened Graphics
  import opened Scenes

  /** What a render pass works on: the registry and the tree, the elements
      `push_el` has collected since the last `g.draw()`, and the lists of
      elements each `g.draw()` has drawn so far. */
  datatype Frame = Frame(w: World, els: seq<DrawElement>, drawn: seq<seq<DrawElement>>)

  /** The frame after a `render()`, and whether it returned (`false`: it
      threw, and the frame is as it was at the throw). */
  datatype Rendered = Rendered(f: Frame, ok: bool)

  /** `Gold._draw`: `this.life.x` throws when the life handle is past the
      end, and `this.rotation.position.z = .1` throws when the rotation
      handle is past the end or holds a `Life`; otherwise the rotation
      entry's position gets `z = 0.1`. */
  function GoldDraw(w: World, p: Play): (r: Option<World>)
    ensures r.Some? <==> p.life < |w.lerpables| && p.rotation < |w.lerpables| && w.lerpables[p.rotation].Rigid?
    ensures r.Some? ==> && r.value.plays == w.plays && r.value.next == w.next
                        && |r.value.lerpables| == |w.lerpables|
                        && (forall n :: 0 <= n < |w.lerpables| && n != p.rotation ==> r.value.lerpables[n] == w.lerpables[n])
                        && var old_r := w.lerpables[p.rotation];
                           r.value.lerpables[p.rotation] == old_r.(position := old_r.position.(z := 0.1))
  {
    if p.life >= |w.lerpables| || p.rotation >= |w.lerpables| then None
    else
      match w.lerpables[p.rotation]
      case Life(_) => None
      case Rigid(pos, d, dd) =>
        Some(w.(lerpables := w.lerpables[p.rotation := Rigid(pos.(z := 0.1), d, dd)]))
  }

  /** The `_draw` hook of each kind, as far as it touches the model: only
      `Gold`'s changes the registry; the others only paint the canvas. */
  function DrawHook(w: World, p: Play): Option<World>
  {
    if p.kind == Gold then GoldDraw(w, p) else Some(w)
  }

  /** `push_el(rx, ry, rz, x, y, z, tx, ty, ...)`: the scale values passed
      after `ty` are not parameters of `push_el` and are dropped. */
  function Element(pos: Vec3, rot: Vec3, p: Play): DrawElement
  {
    DrawElement(Placement(rot.x, rot.y, rot.z, pos.x, pos.y, pos.z), p.tx, p.ty)
  }

  /** `render()` on object `id`. */
  function RenderNode(f: Frame, id: nat): (r: Rendered)
    requires Valid(f.w) && id in f.w.plays
    ensures r.f.w == f.w.(lerpables := r.f.w.lerpables) && |r.f.w.lerpables| == |f.w.lerpables|
    decreases f.w.next - id, 1
  {
    assert NodeOk(f.w, id);
    var c := RenderAll(f, id, f.w.plays[id].children);
    if !c.ok then c
    else
      ValidIgnoresLerpables(f.w, c.f.w.lerpables);
      DrawSelf(c.f, id)
  }

  /** What `render()` does once the children are rendered: the `_draw`
      hook, the `push_el` call with the world position and rotation, and
      the `Scene`'s `g.draw()` in `_post_draw`. */
  function DrawSelf(f: Frame, id: nat): (r: Rendered)
    requires Valid(f.w) && id in f.w.plays
    ensures r.f.w == f.w.(lerpables := r.f.w.lerpables) && |r.f.w.lerpables| == |f.w.lerpables|
  {
    var p := f.w.plays[id];
    var hooked := DrawHook(f.w, p);
    if hooked.None? then Rendered(f, false)
    else
      var w1 := hooked.value;
      assert w1 == f.w.(lerpables := w1.lerpables);
      ValidIgnoresLerpables(f.w, w1.lerpables);
      var pos := WorldPosition(w1, id);
      var rot := WorldRotation(w1, id);
      var scale := Get(w1, p.scale);
      if pos.None? || rot.None? || scale.None? then Rendered(f.(w := w1), false)
      else
        var els := f.els + [Element(pos.value, rot.value, p)];
        if p.kind == Scene then Rendered(Frame(w1, [], f.drawn + [els]), true)
        else Rendered(Frame(w1, els, f.drawn), true)
  }

  /** `this.children.forEach(_ => _.render())`: rendering does not change
      any list of children, so the loop walks the list as it was. */
  function RenderAll(f: Frame, id: nat, cs: seq<nat>): (r: Rendered)
    requires Valid(f.w) && id in f.w.plays && id < f.w.next
    requires forall c :: c in cs ==> c in f.w.plays && id < c
    ensures r.f.w == f.w.(lerpables := r.f.w.lerpables) && |r.f.w.lerpables| == |f.w.lerpables|
    decreases f.w.next - id, 0, |cs|
  {
    if cs == [] then Rendered(f, true)
    else
      assert NodeOk(f.w, cs[0]);
      var r1 := RenderNode(f, cs[0]);
      if !r1.ok then r1
      else
        ValidIgnoresLerpables(f.w, r1.f.w.lerpables);
        assert forall c :: c in cs[1..] ==> c in cs;
        RenderAll(r1.f, id, cs[1..])
  }

  // ------------------------------------------------------------ the order

  /** Everything pushed so far: the drawn lists in order, then the pending
      elements. */
  function Stream(f: Frame): seq<DrawElement>
  {
    Flatten(f.drawn) + f.els
  }

  function Flatten(drawn: seq<seq<DrawElement>>): seq<DrawElement>
  {
    if drawn == [] then [] else Flatten(drawn[..|drawn| - 1]) + drawn[|drawn| - 1]
  }

  /** The atlas cells of a list of elements. */
  function Cells(els: seq<DrawElement>): (r: seq<Cell>)
    ensures |r| == |els|
  {
    if els == [] then [] else Cells(els[..|els| - 1]) + [Cell(els[|els| - 1].tx, els[|els| - 1].ty)]
  }

  /** The atlas cells of a list of objects. */
  function CellsOf(plays: map<nat, Play>, ids: seq<nat>): (r: seq<Cell>)
    requires forall i :: i in ids ==> i in plays
    ensures |r| == |ids|
  {
    if ids == [] then [] else
      assert ids[0] in ids;
      [Cell(plays[ids[0]].tx, plays[ids[0]].ty)] + CellsOf(plays, ids[1..])
  }

  lemma {:induction false} CellsAppend(a: seq<DrawElement>, b: seq<DrawElement>)
    ensures Cells(a + b) == Cells(a) + Cells(b)
    decreases |b|
  {
    if b == [] {
      assert a + b == a;
    } else {
      var n := |b| - 1;
      assert (a + b)[..|a + b| - 1] == a + b[..n];
      assert (a + b)[|a + b| - 1] == b[n];
      CellsAppend(a, b[..n]);
    }
  }

  lemma {:induction false} CellsOfAppend(plays: map<nat, Play>, a: seq<nat>, b: seq<nat>)
    requires forall i :: i in a ==> i in plays
    requires forall i :: i in b ==> i in plays
    ensures forall i :: i in a + b ==> i in plays
    ensures CellsOf(plays, a + b) == CellsOf(plays, a) + CellsOf(plays, b)
  {
    if a == [] {
      assert a + b == b;
    } else {
      assert (a + b)[1..] == a[1..] + b;
      assert (a + b)[0] == a[0];
      CellsOfAppend(plays, a[1..], b);
    }
  }

  /** The cells of a subtree in `integrate()` order: the children's
      subtrees, then the object's own cell. */
  lemma CellsOfPostOrder(w: World, id: nat)
    requires Valid(w) && id in w.plays
    ensures NodeOk(w, id)
    ensures CellsOf(w.plays, PostOrder(w, id)) ==
            CellsOf(w.plays, PostOrderAll(w, id, w.plays[id].children)) + [Cell(w.plays[id].tx, w.plays[id].ty)]
  {
    assert NodeOk(w, id);
    CellsOfAppend(w.plays, PostOrderAll(w, id, w.plays[id].children), [id]);
  }

  /** Two appends in a row append their concatenation. */
  lemma Chain<T>(a: seq<T>, b: seq<T>, c: seq<T>, x: seq<T>, y: seq<T>)
    requires b == a + x && c == b + y
    ensures c == a + (x + y)
  {
  }

  lemma {:induction false} PostOrderIgnoresLerpables(w: World, ls: seq<Lerpable>, id: nat)
    requires Valid(w) && id in w.plays
    ensures Valid(w.(lerpables := ls))
    ensures PostOrder(w.(lerpables := ls), id) == PostOrder(w, id)
    decreases w.next - id, 1
  {
    ValidIgnoresLerpables(w, ls);
    assert NodeOk(w, id);
    PostOrderAllIgnoresLerpables(w, ls, id, w.plays[id].children);
  }

  lemma {:induction false} PostOrderAllIgnoresLerpables(w: World, ls: seq<Lerpable>, id: nat, cs: seq<nat>)
    requires Valid(w) && id in w.plays && id < w.next
    requires forall c :: c in cs ==> c in w.plays && id < c
    ensures Valid(w.(lerpables := ls))
    ensures PostOrderAll(w.(lerpables := ls), id, cs) == PostOrderAll(w, id, cs)
    decreases w.next - id, 0, |cs|
  {
    ValidIgnoresLerpables(w, ls);
    if cs != [] {
      assert NodeOk(w, cs[0]);
      PostOrderIgnoresLerpables(w, ls, cs[0]);
      assert forall c :: c in cs[1..] ==> c in cs;
      PostOrderAllIgnoresLerpables(w, ls, id, cs[1..]);
    }
  }

  /** The last step of a render that returns pushes exactly one element,
      with the object's own cell, after everything pushed before; the
      `Scene` hands the pending elements to `g.draw()`, which leaves none
      pending. */
  lemma DrawSelfPushesOne(f: Frame, id: nat)
    requires Valid(f.w) && id in f.w.plays && DrawSelf(f, id).ok
    ensures var r := DrawSelf(f, id).f;
            var p := f.w.plays[id];
            && Cells(Stream(r)) == Cells(Stream(f)) + [Cell(p.tx, p.ty)]
            && |Stream(r)| == |Stream(f)| + 1 && Stream(r)[..|Stream(f)|] == Stream(f)
            && (p.kind == Scene ==> r.els == [] && r.drawn == f.drawn + [f.els + [Stream(r)[|Stream(f)|]]])
            && (p.kind == Scene ==> Cells(r.drawn[|f.drawn|]) == Cells(f.els) + [Cell(p.tx, p.ty)])
            && (p.kind != Scene ==> r.drawn == f.drawn)
  {
    var r := DrawSelf(f, id).f;
    if f.w.plays[id].kind == Scene {
      var d := r.drawn;
      assert d[..|d| - 1] == f.drawn;
      assert Flatten(d) == Flatten(f.drawn) + d[|d| - 1];
      assert Stream(r) == Stream(f) + [d[|d| - 1][|f.els|]];
      assert (f.els + [d[|d| - 1][|f.els|]])[..|f.els|] == f.els;
    } else {
      assert Stream(r) == Stream(f) + [r.els[|f.els|]];
    }
  }

  /** A render that returns pushes one element per object of the subtree,
      in the order `integrate()` visits them (children first, in list
      order), each with that object's own atlas cell. */
  lemma {:induction false} RenderFollowsPostOrder(f: Frame, id: nat)
    requires Valid(f.w) && id in f.w.plays
    requires RenderNode(f, id).ok
    ensures Cells(Stream(RenderNode(f, id).f)) == Cells(Stream(f)) + CellsOf(f.w.plays, PostOrder(f.w, id))
    decreases f.w.next - id, 1
  {
    assert NodeOk(f.w, id);
    var p := f.w.plays[id];
    var c := RenderAll(f, id, p.children);
    ValidIgnoresLerpables(f.w, c.f.w.lerpables);
    assert RenderNode(f, id) == DrawSelf(c.f, id);
    var below := CellsOf(f.w.plays, PostOrderAll(f.w, id, p.children));
    assert Cells(Stream(c.f)) == Cells(Stream(f)) + below by {
      RenderAllFollowsPostOrder(f, id, p.children);
    }
    assert Cells(Stream(DrawSelf(c.f, id).f)) == Cells(Stream(c.f)) + [Cell(p.tx, p.ty)] by {
      DrawSelfPushesOne(c.f, id);
    }
    CellsOfPostOrder(f.w, id);
    Chain(Cells(Stream(f)), Cells(Stream(c.f)), Cells(Stream(DrawSelf(c.f, id).f)), below, [Cell(p.tx, p.ty)]);
  }

  lemma {:induction false} RenderAllFollowsPostOrder(f: Frame, id: nat, cs: seq<nat>)
    requires Valid(f.w) && id in f.w.plays && id < f.w.next
    requires forall c :: c in cs ==> c in f.w.plays && id < c
    requires RenderAll(f, id, cs).ok
    ensures Cells(Stream(RenderAll(f, id, cs).f)) == Cells(Stream(f)) + CellsOf(f.w.plays, PostOrderAll(f.w, id, cs))
    decreases f.w.next - id, 0, |cs|
  {
    if cs != [] {
      assert NodeOk(f.w, cs[0]);
      var r1 := RenderNode(f, cs[0]);
      var rest := cs[1..];
      assert forall c :: c in rest ==> c in cs;
      ValidIgnoresLerpables(f.w, r1.f.w.lerpables);
      assert RenderAll(f, id, cs) == RenderAll(r1.f, id, rest);
      var head := CellsOf(f.w.plays, PostOrder(f.w, cs[0]));
      var tail := CellsOf(f.w.plays, PostOrderAll(f.w, id, rest));
      assert Cells(Stream(r1.f)) == Cells(Stream(f)) + head by {
        RenderFollowsPostOrder(f, cs[0]);
      }
      assert Cells(Stream(RenderAll(r1.f, id, rest).f)) == Cells(Stream(r1.f)) + tail by {
        RenderAllFollowsPostOrder(r1.f, id, rest);
        PostOrderAllIgnoresLerpables(f.w, r1.f.w.lerpables, id, rest);
      }
      assert CellsOf(f.w.plays, PostOrderAll(f.w, id, cs)) == head + tail by {
        CellsOfAppend(f.w.plays, PostOrder(f.w, cs[0]), PostOrderAll(f.w, id, rest));
      }
      Chain(Cells(Stream(f)), Cells(Stream(r1.f)), Cells(Stream(RenderAll(r1.f, id, rest).f)), head, tail);
    }
  }

  // ------------------------------------------------------ Gold and Scene

  /** After `Gold` draws itself, its rotation entry holds depth `0.1`, and
      the element it pushes is tilted by that `0.1` on top of its parent's
      world rotation. */
  lemma GoldDrawsAtDepth(f: Frame, id: nat)
    requires Valid(f.w) && id in f.w.plays && f.w.plays[id].kind == Gold
    requires DrawSelf(f, id).ok
    ensures var r := DrawSelf(f, id).f;
            var p := f.w.plays[id];
            && Valid(r.w) && p.parent in r.w.plays
            && p.rotation < |r.w.lerpables| && r.w.lerpables[p.rotation].Rigid?
            && r.w.lerpables[p.rotation].position.z == 0.1
            && |Stream(r)| == |Stream(f)| + 1
            && (p.parent != id ==>
                  && WorldRotation(r.w, p.parent).Some?
                  && Stream(r)[|Stream(f)|].matrix.rz == 0.1 + WorldRotation(r.w, p.parent).value.z)
  {
    var r := DrawSelf(f, id).f;
    var p := f.w.plays[id];
    assert NodeOk(f.w, id);
    ValidIgnoresLerpables(f.w, r.w.lerpables);
    DrawSelfPushesOne(f, id);
    var e := Stream(r)[|Stream(f)|];
    assert e == Element(WorldPosition(r.w, id).value, WorldRotation(r.w, id).value, p) by {
      if p.kind == Scene {
      } else {
        assert Stream(r) == Flatten(f.drawn) + r.els;
      }
    }
  }

  /** The elements on their own: a render that never reaches a `Scene`
      below its root leaves the drawn lists alone. */
  lemma {:induction false} NoSceneKeepsDrawn(f: Frame, id: nat)
    requires Valid(f.w) && id in f.w.plays && RenderNode(f, id).ok
    requires forall j :: j in PostOrder(f.w, id) ==> f.w.plays[j].kind != Scene
    ensures RenderNode(f, id).f.drawn == f.drawn
    decreases f.w.next - id, 1
  {
    assert NodeOk(f.w, id);
    var p := f.w.plays[id];
    var c := RenderAll(f, id, p.children);
    ValidIgnoresLerpables(f.w, c.f.w.lerpables);
    assert RenderNode(f, id) == DrawSelf(c.f, id);
    NoSceneAllKeepsDrawn(f, id, p.children);
    DrawSelfPushesOne(c.f, id);
  }

  lemma {:induction false} NoSceneAllKeepsDrawn(f: Frame, id: nat, cs: seq<nat>)
    requires Valid(f.w) && id in f.w.plays && id < f.w.next
    requires forall c :: c in cs ==> c in f.w.plays && id < c
    requires RenderAll(f, id, cs).ok
    requires forall j :: j in PostOrderAll(f.w, id, cs) ==> f.w.plays[j].kind != Scene
    ensures RenderAll(f, id, cs).f.drawn == f.drawn
    decreases f.w.next - id, 0, |cs|
  {
    if cs != [] {
      assert NodeOk(f.w, cs[0]);
      var r1 := RenderNode(f, cs[0]);
      var rest := cs[1..];
      assert forall c :: c in rest ==> c in cs;
      ValidIgnoresLerpables(f.w, r1.f.w.lerpables);
      assert RenderAll(f, id, cs) == RenderAll(r1.f, id, rest);
      NoSceneKeepsDrawn(f, cs[0]);
      PostOrderAllIgnoresLerpables(f.w, r1.f.w.lerpables, id, rest);
      NoSceneAllKeepsDrawn(r1.f, id, rest);
    }
  }

  /** `a + x == a + y` leaves `x == y`. */
  lemma Cancel<T>(a: seq<T>, x: seq<T>, y: seq<T>)
    requires a + x == a + y
    ensures x == y
  {
    assert x == (a + x)[|a|..];
  }

  /** Children that hold no `Scene` push their elements onto the pending
      list, in `integrate()` order. */
  lemma NoSceneChildrenPend(f: Frame, id: nat)
    requires Valid(f.w) && id in f.w.plays && id < f.w.next
    requires forall c :: c in f.w.plays[id].children ==> c in f.w.plays && id < c
    requires RenderAll(f, id, f.w.plays[id].children).ok
    requires forall j :: j in PostOrder(f.w, id) && j != id ==> f.w.plays[j].kind != Scene
    ensures var c := RenderAll(f, id, f.w.plays[id].children).f;
            && c.drawn == f.drawn
            && Cells(c.els) == Cells(f.els) + CellsOf(f.w.plays, PostOrderAll(f.w, id, f.w.plays[id].children))
  {
    var cs := f.w.plays[id].children;
    var c := RenderAll(f, id, cs).f;
    var below := CellsOf(f.w.plays, PostOrderAll(f.w, id, cs));
    assert c.drawn == f.drawn by {
      forall j | j in PostOrderAll(f.w, id, cs)
        ensures f.w.plays[j].kind != Scene
      {
        assert j in PostOrder(f.w, id);
      }
      NoSceneAllKeepsDrawn(f, id, cs);
    }
    assert Cells(Stream(c)) == Cells(Stream(f)) + below by {
      RenderAllFollowsPostOrder(f, id, cs);
    }
    CellsAppend(Flatten(f.drawn), c.els);
    CellsAppend(Flatten(f.drawn), f.els);
    Chain(Cells(Flatten(f.drawn)), Cells(Stream(f)), Cells(Stream(c)), Cells(f.els), below);
    Cancel(Cells(Flatten(f.drawn)), Cells(c.els), Cells(f.els) + below);
  }

  /** A `Scene` with no other `Scene` below it draws once per render: the
      elements pending before it and one element per object of its subtree,
      in `integrate()` order, go to `g.draw()` in one list, and nothing is
      left pending. */
  lemma SceneDrawsWholeTree(f: Frame, id: nat)
    requires Valid(f.w) && id in f.w.plays && f.w.plays[id].kind == Scene
    requires RenderNode(f, id).ok
    requires forall j :: j in PostOrder(f.w, id) && j != id ==> f.w.plays[j].kind != Scene
    ensures var r := RenderNode(f, id).f;
            && r.els == [] && |r.drawn| == |f.drawn| + 1 && r.drawn[..|f.drawn|] == f.drawn
            && Cells(r.drawn[|f.drawn|]) == Cells(f.els) + CellsOf(f.w.plays, PostOrder(f.w, id))
  {
    assert NodeOk(f.w, id);
    var p := f.w.plays[id];
    var c := RenderAll(f, id, p.children);
    ValidIgnoresLerpables(f.w, c.f.w.lerpables);
    assert RenderNode(f, id) == DrawSelf(c.f, id);
    var r := DrawSelf(c.f, id).f;
    var below := CellsOf(f.w.plays, PostOrderAll(f.w, id, p.children));
    assert c.f.drawn == f.drawn && Cells(c.f.els) == Cells(f.els) + below by {
      NoSceneChildrenPend(f, id);
    }
    assert r.els == [] && r.drawn == f.drawn + [r.drawn[|f.drawn|]]
        && Cells(r.drawn[|f.drawn|]) == Cells(c.f.els) + [Cell(p.tx, p.ty)] by {
      DrawSelfPushesOne(c.f, id);
    }
    CellsOfPostOrder(f.w, id);
    Chain(Cells(f.els), Cells(c.f.els), Cells(r.drawn[|f.drawn|]), below, [Cell(p.tx, p.ty)]);
  }

  // ----------------------------------------------------------- as written

  /** `render()` as written: `_pre_draw`, then the children in order, then
      `g.begin_rect(tx, ty)`, which is not a method of `Graphics` and
      throws before `_draw` or `push_el` run. */
  function RenderAsWritten(f: Frame, id: nat): (r: Rendered)
    requires Valid(f.w) && id in f.w.plays
    decreases f.w.next - id, 1
  {
    assert NodeOk(f.w, id);
    var c := RenderAllAsWritten(f, id, f.w.plays[id].children);
    if !c.ok then c
    else Rendered(c.f, false)
  }

  function RenderAllAsWritten(f: Frame, id: nat, cs: seq<nat>): (r: Rendered)
    requires Valid(f.w) && id in f.w.plays && id < f.w.next
    requires forall c :: c in cs ==> c in f.w.plays && id < c
    decreases f.w.next - id, 0, |cs|
  {
    if cs == [] then Rendered(f, true)
    else
      assert NodeOk(f.w, cs[0]);
      var r1 := RenderAsWritten(f, cs[0]);
      if !r1.ok then r1
      else
        assert forall c :: c in cs[1..] ==> c in cs;
        RenderAllAsWritten(f, id, cs[1..])
  }

  /** As written, every `render()` throws and nothing reaches `push_el`
      or `g.draw()`: the frame comes back as it was. */
  lemma {:induction false} RenderAsWrittenThrows(f: Frame, id: nat)
    requires Valid(f.w) && id in f.w.plays
    ensures RenderAsWritten(f, id) == Rendered(f, false)
    decreases f.w.next - id, 1
  {
    assert NodeOk(f.w, id);
    RenderAllAsWrittenThrows(f, id, f.w.plays[id].children);
  }

  lemma {:induction false} RenderAllAsWrittenThrows(f: Frame, id: nat, cs: seq<nat>)
    requires Valid(f.w) && id in f.w.plays && id < f.w.next
    requires forall c :: c in cs ==> c in f.w.plays && id < c
    ensures RenderAllAsWritten(f, id, cs) == Rendered(f, cs == [])
    decreases f.w.next - id, 0, |cs|
  {
    if cs != [] {
      assert NodeOk(f.w, cs[0]);
      RenderAsWrittenThrows(f, cs[0]);
    }
  }
}
