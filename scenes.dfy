/** The scene graph of `src/scenes2.ts`: the `PlayState` registry of
    lerpables addressed by raw indices, and the tree of `Play` objects that
    hold handles into it, each with a parent, an ordered list of children
    and a borrowed atlas cell.

    Objects are named by their identity: a `World` maps each `Play` object
    ever created to its fields, and ids are handed out in increasing order,
    so a child's id is larger than its parent's. A removed object stays in
    the map (the object still exists); it is only detached from its parent's
    list of children. */
module Scenes {
  import opened Common
  import opened Lerpables
  import opened Graphics

  /** The `Play` subclasses, standing in for `instanceof`. */
  datatype Kind = Scene | Gold | OneBot | OneG

  /** The fields of one `Play` object. `life`, `transform`, `rotation` and
      `scale` are indices into the registry; `tx`, `ty` is its atlas cell. */
  datatype Play = Play(kind: Kind, parent: nat, children: seq<nat>,
                       life: nat, transform: nat, rotation: nat, scale: nat,
                       tx: int, ty: int)

  /** The registry, every `Play` object, and the next free identity. */
  datatype World = World(lerpables: seq<Lerpable>, plays: map<nat, Play>, next: nat)

  /** Parent links point down the id order (the root is its own parent),
      every child points back at the parent that lists it, and no child is
      listed twice. */
  predicate Valid(w: World)
  {
    forall i {:trigger NodeOk(w, i)} :: i in w.plays ==> NodeOk(w, i)
  }

  predicate NodeOk(w: World, i: nat)
    requires i in w.plays
  {
    var p := w.plays[i];
    i < w.next && p.parent in w.plays && p.parent <= i &&
    (forall c :: c in p.children ==> c in w.plays && i < c && w.plays[c].parent == i) &&
    Distinct(p.children)
  }

  /** Every existing id is below the next free one. */
  lemma KeysBelowNext(w: World)
    requires Valid(w)
    ensures forall i :: i in w.plays ==> i < w.next
  {
    forall i | i in w.plays
      ensures i < w.next
    {
      assert NodeOk(w, i);
    }
  }

  /** The tree does not depend on the registry. */
  lemma ValidIgnoresLerpables(w: World, ls: seq<Lerpable>)
    requires Valid(w)
    ensures Valid(w.(lerpables := ls))
  {
    var r := w.(lerpables := ls);
    forall i | i in r.plays
      ensures NodeOk(r, i)
    {
      assert NodeOk(w, i);
    }
  }

  // ------------------------------------------------------------ registry

  /** `register_lerpable(l)`: push, and the new index. */
  function Register(w: World, l: Lerpable): (r: (World, nat))
    ensures r.0.lerpables == w.lerpables + [l] && r.0.plays == w.plays && r.0.next == w.next
    ensures r.1 == |w.lerpables|
  {
    (w.(lerpables := w.lerpables + [l]), |w.lerpables|)
  }

  /** `deregister_lerpable(n)`: `splice(n, 1)`. */
  function Deregister(w: World, n: nat): (r: World)
    ensures r.plays == w.plays && r.next == w.next
  {
    w.(lerpables := SpliceOne(w.lerpables, n))
  }

  /** `get_lerpable(n)`: `undefined` past the end. */
  function Get(w: World, n: nat): (r: Option<Lerpable>)
    ensures r.Some? <==> n < |w.lerpables|
  {
    if n < |w.lerpables| then Some(w.lerpables[n]) else None
  }

  /** The handle `register_lerpable` returns reads back what was registered,
      and the handles registered before are unaffected. */
  lemma RegisterThenGet(w: World, l: Lerpable)
    ensures Get(Register(w, l).0, Register(w, l).1) == Some(l)
    ensures forall n: nat :: n < |w.lerpables| ==> Get(Register(w, l).0, n) == Get(w, n)
  {
  }

  /** Deregistering handle `h` removes exactly that entry: lower handles
      still read the same lerpable, and every higher handle now reads the
      lerpable that the next handle up used to read. */
  lemma DeregisterShiftsLaterHandles(w: World, h: nat)
    requires h < |w.lerpables|
    ensures |Deregister(w, h).lerpables| == |w.lerpables| - 1
    ensures forall n: nat :: n < h ==> Get(Deregister(w, h), n) == Get(w, n)
    ensures forall n: nat :: h <= n ==> Get(Deregister(w, h), n) == Get(w, n + 1)
  {
    SpliceOneEffect(w.lerpables, h);
  }

  /** Deregistering never breaks the tree. */
  lemma DeregisterKeepsValid(w: World, n: nat)
    requires Valid(w)
    ensures Valid(Deregister(w, n))
  {
    ValidIgnoresLerpables(w, SpliceOne(w.lerpables, n));
  }

  // ------------------------------------------------------------- setters

  /** The three handles a setter can replace. */
  datatype Slot = TransformSlot | RotationSlot | ScaleSlot

  function Handle(p: Play, slot: Slot): nat
  {
    match slot
    case TransformSlot => p.transform
    case RotationSlot => p.rotation
    case ScaleSlot => p.scale
  }

  function WithHandle(p: Play, slot: Slot, n: nat): (q: Play)
    ensures Handle(q, slot) == n
    ensures forall s :: s != slot ==> Handle(q, s) == Handle(p, s)
    ensures q.kind == p.kind && q.parent == p.parent && q.children == p.children
    ensures q.life == p.life && q.tx == p.tx && q.ty == p.ty
  {
    match slot
    case TransformSlot => p.(transform := n)
    case RotationSlot => p.(rotation := n)
    case ScaleSlot => p.(scale := n)
  }

  /** `set transform(l)` (and `rotation`, `scale`): deregister the old
      handle, register `l`, keep the new handle. */
  function SetHandle(w: World, id: nat, slot: Slot, l: Lerpable): (r: World)
    requires id in w.plays
    ensures r.plays.Keys == w.plays.Keys && r.next == w.next
  {
    var w1 := Deregister(w, Handle(w.plays[id], slot));
    var (w2, n) := Register(w1, l);
    w2.(plays := w2.plays[id := WithHandle(w2.plays[id], slot, n)])
  }

  /** A setter whose old handle is live keeps the registry's length, and the
      new handle is the last index and reads the new lerpable. A stale
      handle past the end removes nothing, so the registry grows. */
  lemma SetterReplacesAtEnd(w: World, id: nat, slot: Slot, l: Lerpable)
    requires id in w.plays
    ensures var r := SetHandle(w, id, slot, l);
            && Handle(r.plays[id], slot) == |r.lerpables| - 1
            && Get(r, Handle(r.plays[id], slot)) == Some(l)
            && (Handle(w.plays[id], slot) < |w.lerpables| ==> |r.lerpables| == |w.lerpables|)
            && (Handle(w.plays[id], slot) >= |w.lerpables| ==> |r.lerpables| == |w.lerpables| + 1)
  {
    SpliceOneEffect(w.lerpables, Handle(w.plays[id], slot));
  }

  /** Setters keep the tree valid. */
  lemma SetHandleKeepsValid(w: World, id: nat, slot: Slot, l: Lerpable)
    requires Valid(w) && id in w.plays
    ensures Valid(SetHandle(w, id, slot, l))
  {
    var r := SetHandle(w, id, slot, l);
    forall i | i in r.plays
      ensures NodeOk(r, i)
    {
      assert NodeOk(w, i);
    }
  }

  // ------------------------------------------------------ world position

  /** `world_position`: the local position (`transform.value`) plus the
      parent's world position, up to the self-parented root; `None` where
      a handle on the way is past the end of the registry (`undefined.value`
      throws). */
  function WorldPosition(w: World, id: nat): Option<Vec3>
    requires Valid(w) && id in w.plays
    decreases id
  {
    WorldSum(w, id, TransformSlot)
  }

  /** `world_rotation`, the same sum over the rotation handles. */
  function WorldRotation(w: World, id: nat): Option<Vec3>
    requires Valid(w) && id in w.plays
    decreases id
  {
    WorldSum(w, id, RotationSlot)
  }

  function WorldSum(w: World, id: nat, slot: Slot): Option<Vec3>
    requires Valid(w) && id in w.plays
    decreases id
  {
    assert NodeOk(w, id);
    var p := w.plays[id];
    var local := Get(w, Handle(p, slot));
    if local.None? then None
    else if p.parent == id then Some(Value(local.value))
    else
      var up := WorldSum(w, p.parent, slot);
      if up.None? then None else Some(Add3(Value(local.value), up.value))
  }

  /** The chain of objects from `id` up to its root, `id` first. */
  function Ancestors(w: World, id: nat): (r: seq<nat>)
    requires Valid(w) && id in w.plays
    ensures |r| >= 1 && r[0] == id
    ensures forall k :: 0 <= k < |r| ==> r[k] in w.plays
    decreases id
  {
    assert NodeOk(w, id);
    var p := w.plays[id].parent;
    if p == id then [id] else [id] + Ancestors(w, p)
  }

  /** The local values of the given slot along a chain, or `None` if a
      handle is past the end. */
  function Locals(w: World, chain: seq<nat>, slot: Slot): (r: Option<seq<Vec3>>)
    requires forall k :: 0 <= k < |chain| ==> chain[k] in w.plays
    ensures r.Some? ==> |r.value| == |chain|
  {
    if chain == [] then Some([])
    else
      var l := Get(w, Handle(w.plays[chain[0]], slot));
      var rest := Locals(w, chain[1..], slot);
      if l.None? || rest.None? then None else Some([Value(l.value)] + rest.value)
  }

  /** Componentwise sum of a list of vectors. */
  function Sum3(vs: seq<Vec3>): Vec3
  {
    if vs == [] then Zero3 else Add3(vs[0], Sum3(vs[1..]))
  }

  /** The world value is the sum of the local values along the chain of
      ancestors; it is defined exactly when every handle on the chain is
      live. */
  lemma {:induction false} WorldSumIsChainSum(w: World, id: nat, slot: Slot)
    requires Valid(w) && id in w.plays
    ensures var locals := Locals(w, Ancestors(w, id), slot);
            && (WorldSum(w, id, slot).Some? <==> locals.Some?)
            && (locals.Some? ==> WorldSum(w, id, slot).value == Sum3(locals.value))
    decreases id
  {
    assert NodeOk(w, id);
    var p := w.plays[id].parent;
    var chain := Ancestors(w, id);
    if p != id {
      WorldSumIsChainSum(w, p, slot);
      assert chain[1..] == Ancestors(w, p);
    } else {
      assert chain[1..] == [];
    }
  }

  /** A child of a root: its world position is the root's local position
      plus its own. */
  lemma ChildOfRootPosition(w: World, root: nat, child: nat, rootLocal: Vec3, childLocal: Vec3)
    requires Valid(w) && root in w.plays && w.plays[root].parent == root
    requires child in w.plays && child != root && w.plays[child].parent == root
    requires Get(w, w.plays[root].transform) == Some(RigidAt(rootLocal))
    requires Get(w, w.plays[child].transform) == Some(RigidAt(childLocal))
    ensures WorldPosition(w, child) == Some(Add3(childLocal, rootLocal))
  {
    assert NodeOk(w, child);
    assert NodeOk(w, root);
    assert WorldSum(w, root, TransformSlot) == Some(rootLocal);
  }

  // ------------------------------------------------------------ integrate

  /** The objects `integrate()` reaches from `id`, in the order their
      `_update` runs: each child's subtree in list order, then the object
      itself. */
  function PostOrder(w: World, id: nat): (r: seq<nat>)
    requires Valid(w) && id in w.plays
    ensures |r| >= 1 && r[|r| - 1] == id
    ensures forall j :: j in r ==> j in w.plays && id <= j
    decreases w.next - id, 1
  {
    assert NodeOk(w, id);
    PostOrderAll(w, id, w.plays[id].children) + [id]
  }

  function PostOrderAll(w: World, id: nat, cs: seq<nat>): (r: seq<nat>)
    requires Valid(w) && id in w.plays && id < w.next
    requires forall c :: c in cs ==> c in w.plays && id < c
    ensures forall j :: j in r ==> j in w.plays && id < j
    decreases w.next - id, 0, |cs|
  {
    if cs == [] then []
    else
      assert forall c :: c in cs[1..] ==> c in cs;
      PostOrder(w, cs[0]) + PostOrderAll(w, id, cs[1..])
  }

  /** Every child of `id` is updated before `id`, after its own subtree. */
  lemma ChildrenUpdateFirst(w: World, id: nat, k: int)
    requires Valid(w) && id in w.plays
    requires 0 <= k < |w.plays[id].children|
    ensures w.plays[id].children[k] in PostOrder(w, id)[..|PostOrder(w, id)| - 1]
  {
    assert NodeOk(w, id);
    var cs := w.plays[id].children;
    InPostOrderAll(w, id, cs, k);
  }

  lemma {:induction false} InPostOrderAll(w: World, id: nat, cs: seq<nat>, k: int)
    requires Valid(w) && id in w.plays && id < w.next
    requires forall c :: c in cs ==> c in w.plays && id < c
    requires 0 <= k < |cs|
    ensures cs[k] in PostOrderAll(w, id, cs)
  {
    assert NodeOk(w, cs[0]);
    var rest := cs[1..];
    assert forall c :: c in rest ==> c in cs;
    if k > 0 {
      assert rest[k - 1] == cs[k];
      InPostOrderAll(w, id, rest, k - 1);
    } else {
      var p := PostOrder(w, cs[0]);
      assert p[|p| - 1] == cs[0];
    }
  }

  // ----------------------------------------------------------- many, one

  /** `many(ctor)`: the children of that kind, in order. */
  function Many(w: World, id: nat, kind: Kind): (r: seq<nat>)
    requires Valid(w) && id in w.plays
    ensures forall c :: c in r <==> c in w.plays[id].children && w.plays[c].kind == kind
  {
    assert NodeOk(w, id);
    OfKind(w, w.plays[id].children, kind)
  }

  function OfKind(w: World, cs: seq<nat>, kind: Kind): (r: seq<nat>)
    requires forall c :: c in cs ==> c in w.plays
    ensures forall c :: c in r <==> c in cs && w.plays[c].kind == kind
    ensures |r| <= |cs|
  {
    if cs == [] then []
    else (if w.plays[cs[0]].kind == kind then [cs[0]] else []) + OfKind(w, cs[1..], kind)
  }

  /** `one(ctor)`: the first child of that kind. */
  function One(w: World, id: nat, kind: Kind): (r: Option<nat>)
    requires Valid(w) && id in w.plays
    ensures r.None? <==> forall c :: c in w.plays[id].children ==> w.plays[c].kind != kind
    ensures r.Some? ==> r.value in w.plays[id].children && w.plays[r.value].kind == kind
  {
    assert NodeOk(w, id);
    FirstOfKind(w, w.plays[id].children, kind)
  }

  function FirstOfKind(w: World, cs: seq<nat>, kind: Kind): (r: Option<nat>)
    requires forall c :: c in cs ==> c in w.plays
    ensures r.None? <==> forall c :: c in cs ==> w.plays[c].kind != kind
    ensures r.Some? ==> r.value in cs && w.plays[r.value].kind == kind
  {
    if cs == [] then None
    else if w.plays[cs[0]].kind == kind then Some(cs[0])
    else FirstOfKind(w, cs[1..], kind)
  }

  /** `one` is the head of `many`. */
  lemma {:induction false} OneIsFirstOfMany(w: World, id: nat, kind: Kind)
    requires Valid(w) && id in w.plays
    ensures One(w, id, kind) == if Many(w, id, kind) == [] then None else Some(Many(w, id, kind)[0])
  {
    assert NodeOk(w, id);
    FirstIsHead(w, w.plays[id].children, kind);
  }

  lemma {:induction false} FirstIsHead(w: World, cs: seq<nat>, kind: Kind)
    requires forall c :: c in cs ==> c in w.plays
    ensures FirstOfKind(w, cs, kind) == if OfKind(w, cs, kind) == [] then None else Some(OfKind(w, cs, kind)[0])
  {
    if cs != [] && w.plays[cs[0]].kind != kind {
      FirstIsHead(w, cs[1..], kind);
    }
  }
}
