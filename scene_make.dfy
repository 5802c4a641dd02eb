/** `make`, `_make` and `init` of `src/scenes2.ts`, and the `_init` hooks of
    the four `Play` subclasses, which make the fixed initial scene.

    `make(ctor, data, t, r, s)` constructs the object (four registrations:
    `Life`, then a `Rigid` for each of `t`, `r`, `s`), sets its parent, runs
    `init()` (borrow an atlas cell, then `_init()`) and only then appends
    the object to the parent's children. `borrow_texture_space()` on an
    empty pool gives `undefined`, and the destructuring in `init()` throws:
    the exception leaves everything done so far in place and skips the
    rest, up to the outermost call. */
module SceneMake {
  import opened Common
  import opened Lerpables
  import opened Graphics
  import opened Scenes

  /** `Math.PI`. */
  const Pi: real := 3.141592653589793

  /** The arguments of one `make(ctor, {}, t, r, s)` call, with the
      defaults (`Vec3.zero`, `Vec3.zero`, `Vec3.unit`) filled in. */
  datatype Spec = Spec(kind: Kind, t: Vec3, r: Vec3, s: Vec3)

  /** How deep `_init` hooks can nest below an object of this kind. */
  function Rank(k: Kind): nat
  {
    match k
    case Scene => 2
    case OneG => 1
    case _ => 0
  }

  /** The `make` calls each subclass's `_init` issues, in order: a `Scene`
      makes a `Gold` and a `OneG`, a `OneG` makes a `OneBot`. */
  function InitSpecs(k: Kind): (r: seq<Spec>)
    ensures forall j :: 0 <= j < |r| ==> Rank(r[j].kind) < Rank(k)
  {
    match k
    case Scene =>
      [Spec(Gold, Zero3, Zero3, Unit3),
       Spec(OneG, Vec3(100.0, 15.0, 2.0), Vec3(Pi * 0.35, 0.0, 0.0), Vec3(2.0, 1.0, 1.0))]
    case OneG => [Spec(OneBot, Zero3, Vec3(-Pi * 0.39, 0.0, 0.0), Unit3)]
    case _ => []
  }

  /** How many objects (and so atlas cells) making one of this kind takes,
      counting what its `_init` makes. */
  function Size(k: Kind): nat
  {
    match k
    case Scene => 4
    case OneG => 2
    case _ => 1
  }

  function SizeAll(specs: seq<Spec>): nat
  {
    if specs == [] then 0 else Size(specs[0].kind) + SizeAll(specs[1..])
  }

  /** `Size` counts the object and, recursively, what its `_init` makes. */
  lemma SizeCountsInit(k: Kind)
    ensures Size(k) == 1 + SizeAll(InitSpecs(k))
  {
    var specs := InitSpecs(k);
    match k
    case Scene =>
      assert specs[1..][1..] == [];
      assert SizeAll(specs[1..]) == Size(OneG);
      assert SizeAll(specs) == Size(Gold) + Size(OneG);
    case OneG => assert specs[1..] == [];
    case _ =>
  }

  /** The state after a `make`, and the new object's id; `None` when the
      call threw. */
  datatype Made = Made(w: World, pool: seq<Cell>, id: Option<nat>)

  /** `parent.children.push(child)`. */
  function Attached(p: Play, child: nat): Play
  {
    p.(children := p.children + [child])
  }

  /** What a successful `make` promises about the new object: the next id,
      the requested kind and parent (itself for the root), the four
      handles just past the old end of the registry holding `Life(zero)`
      and a `Rigid` at rest at each of `t`, `r`, `s`, the first cell of the
      pool, and one child per `make` of its `_init`, of the kinds asked for. */
  predicate MadeFresh(w: World, pool: seq<Cell>, parent: Option<nat>, spec: Spec, m: Made)
    requires m.id.Some?
  {
    var id := m.id.value;
    var h := |w.lerpables|;
    id == w.next && id in m.w.plays && pool != [] &&
    var p := m.w.plays[id];
    p.kind == spec.kind && p.parent == (if parent.Some? then parent.value else id) &&
    p.life == h && p.transform == h + 1 && p.rotation == h + 2 && p.scale == h + 3 &&
    p.tx == pool[0].x && p.ty == pool[0].y
  }

  /** `new ctor(g, ps, t, r, s)`, `res.parent = parent` and the borrow at
      the start of `init()`: the object exists, with its cell, but has no
      children yet and is not listed by its parent. On an empty pool only
      the four registrations happen. */
  function Construct(w: World, pool: seq<Cell>, parent: Option<nat>, spec: Spec): (m: Made)
    ensures |m.w.lerpables| == |w.lerpables| + 4 && w.lerpables <= m.w.lerpables
    ensures m.w.lerpables[|w.lerpables|..] == [Life(Zero3), RigidAt(spec.t), RigidAt(spec.r), RigidAt(spec.s)]
    ensures m.id.Some? <==> pool != []
    ensures m.pool == if pool == [] then [] else pool[1..]
    ensures m.id.None? ==> m.w.plays == w.plays && m.w.next == w.next
    ensures m.id.Some? ==>
              && m.id.value == w.next && m.w.next == w.next + 1
              && w.next in m.w.plays && m.w.plays == w.plays[w.next := m.w.plays[w.next]]
              && var h := |w.lerpables|;
                 var p := m.w.plays[w.next];
                 && p.kind == spec.kind && p.parent == (if parent.Some? then parent.value else w.next)
                 && p.life == h && p.transform == h + 1 && p.rotation == h + 2 && p.scale == h + 3
                 && p.tx == pool[0].x && p.ty == pool[0].y && p.children == []
  {
    var h := |w.lerpables|;
    var w1 := w.(lerpables := w.lerpables + [Life(Zero3), RigidAt(spec.t), RigidAt(spec.r), RigidAt(spec.s)]);
    var (cell, pool1) := Shift(pool);
    if cell.None? then Made(w1, pool1, None)
    else
      var id := w.next;
      var node := Play(spec.kind, if parent.Some? then parent.value else id, [],
                       h, h + 1, h + 2, h + 3, cell.value.x, cell.value.y);
      Made(w1.(plays := w1.plays[id := node], next := id + 1), pool1, Some(id))
  }

  /** `make(ctor, {}, t, r, s)` on `parent`, or, with no parent, the root
      built by `new Scene(g, ps)._set_data({}).init()`: construct, run the
      `_init` hook, then append to the parent's children. */
  function Make(w: World, pool: seq<Cell>, parent: Option<nat>, spec: Spec): (m: Made)
    requires parent.Some? ==> parent.value in w.plays
    ensures w.plays.Keys <= m.w.plays.Keys && w.lerpables <= m.w.lerpables
    decreases Rank(spec.kind), 1
  {
    var c := Construct(w, pool, parent, spec);
    if c.id.None? then c
    else
      var id := c.id.value;
      var m := Hooks(c.w, c.pool, id, spec.kind, InitSpecs(spec.kind));
      if m.id.None? || parent.None? then Made(m.w, m.pool, if m.id.None? then None else Some(id))
      else Made(m.w.(plays := m.w.plays[parent.value := Attached(m.w.plays[parent.value], id)]), m.pool, Some(id))
  }

  /** The `_init` hook of an object of kind `kind`: each `make` in turn on
      the object, stopping at the first that throws. */
  function Hooks(w: World, pool: seq<Cell>, owner: nat, kind: Kind, specs: seq<Spec>): (m: Made)
    requires owner in w.plays
    requires forall j :: 0 <= j < |specs| ==> Rank(specs[j].kind) < Rank(kind)
    ensures w.plays.Keys <= m.w.plays.Keys && w.lerpables <= m.w.lerpables
    decreases Rank(kind), 0, |specs|
  {
    if specs == [] then Made(w, pool, Some(owner))
    else
      var m := Make(w, pool, Some(owner), specs[0]);
      if m.id.None? then m
      else Hooks(m.w, m.pool, owner, kind, specs[1..])
  }

  // ------------------------------------------------------ the tree stays valid

  /** `make` keeps the tree valid; the parent
      gains exactly the new child at the end of its list (and only when the
      call succeeds), no other existing object changes, and the new object
      has the next id and the kind asked for. */
  lemma {:induction false} MakeKeepsValid(w: World, pool: seq<Cell>, parent: Option<nat>, spec: Spec)
    requires Valid(w)
    requires parent.Some? ==> parent.value in w.plays
    decreases Rank(spec.kind), 1, 1
    ensures var m := Make(w, pool, parent, spec);
            && Valid(m.w)
            && (forall i :: i in w.plays ==>
                  m.w.plays[i] == if parent == Some(i) && m.id.Some? then Attached(w.plays[i], m.id.value) else w.plays[i])
            && (m.id.Some? ==>
                  && m.id.value == w.next && w.next in m.w.plays
                  && m.w.plays[w.next].kind == spec.kind)
  {
    if pool == [] {
      ValidIgnoresLerpables(w, Construct(w, pool, parent, spec).w.lerpables);
    } else {
      BuiltKeepsValid(w, pool, parent, spec);
    }
  }

  lemma {:induction false} BuiltKeepsValid(w: World, pool: seq<Cell>, parent: Option<nat>, spec: Spec)
    requires Valid(w) && pool != []
    requires parent.Some? ==> parent.value in w.plays
    decreases Rank(spec.kind), 1, 0
    ensures var m := Make(w, pool, parent, spec);
            && Valid(m.w)
            && (forall i :: i in w.plays ==>
                  m.w.plays[i] == if parent == Some(i) && m.id.Some? then Attached(w.plays[i], m.id.value) else w.plays[i])
            && (m.id.Some? ==>
                  && m.id.value == w.next && w.next in m.w.plays
                  && m.w.plays[w.next].kind == spec.kind)
  {
    var c := Construct(w, pool, parent, spec);
    var id := w.next;
    ConstructKeepsValid(w, pool, parent, spec);
    HooksKeepsValid(c.w, c.pool, id, spec.kind, InitSpecs(spec.kind));
    var m := Hooks(c.w, c.pool, id, spec.kind, InitSpecs(spec.kind));
    if m.id.Some? && parent.Some? {
      var r := m.w.(plays := m.w.plays[parent.value := Attached(m.w.plays[parent.value], id)]);
      assert Make(w, pool, parent, spec) == Made(r, m.pool, Some(id));
      assert Valid(r) by {
        NotYetListed(w, parent.value);
        AttachKeepsValid(m.w, parent.value, id);
      }
    } else {
      assert Make(w, pool, parent, spec) == Made(m.w, m.pool, if m.id.None? then None else Some(id));
    }
  }

  /** The object `new` adds is younger than every other and not listed
      yet, so the tree stays valid and no existing object changes. */
  lemma ConstructKeepsValid(w: World, pool: seq<Cell>, parent: Option<nat>, spec: Spec)
    requires Valid(w) && pool != []
    requires parent.Some? ==> parent.value in w.plays
    ensures var c := Construct(w, pool, parent, spec);
            && Valid(c.w) && w.next !in w.plays
            && forall i :: i in w.plays ==> i in c.w.plays && c.w.plays[i] == w.plays[i]
  {
    var c := Construct(w, pool, parent, spec);
    var id := w.next;
    KeysBelowNext(w);
    ValidIgnoresLerpables(w, c.w.lerpables);
    AddNodeKeepsValid(w.(lerpables := c.w.lerpables), c.w.plays[id]);
    assert c.w == w.(lerpables := c.w.lerpables).(plays := w.plays[w.next := c.w.plays[id]], next := w.next + 1);
  }

  lemma {:induction false} HooksKeepsValid(w: World, pool: seq<Cell>, owner: nat, kind: Kind, specs: seq<Spec>)
    requires Valid(w) && owner in w.plays
    requires forall j :: 0 <= j < |specs| ==> Rank(specs[j].kind) < Rank(kind)
    decreases Rank(kind), 0, |specs|
    ensures var m := Hooks(w, pool, owner, kind, specs);
            && Valid(m.w)
            && (forall i :: i in w.plays && i != owner ==> m.w.plays[i] == w.plays[i])
            && m.w.plays[owner] == w.plays[owner].(children := m.w.plays[owner].children)
            && w.plays[owner].children <= m.w.plays[owner].children
  {
    if specs != [] {
      MakeKeepsValid(w, pool, Some(owner), specs[0]);
      var m := Make(w, pool, Some(owner), specs[0]);
      if m.id.Some? {
        HooksKeepsValid(m.w, m.pool, owner, kind, specs[1..]);
      }
    }
  }

  /** Adding a childless object with the next id under an existing parent
      (or as its own parent) keeps the tree valid. */
  lemma AddNodeKeepsValid(w: World, node: Play)
    requires Valid(w) && node.children == []
    requires node.parent in w.plays || node.parent == w.next
    ensures Valid(w.(plays := w.plays[w.next := node], next := w.next + 1))
  {
    var r := w.(plays := w.plays[w.next := node], next := w.next + 1);
    forall i | i in r.plays
      ensures NodeOk(r, i)
    {
      if i == w.next {
        assert node.parent in w.plays ==> NodeOk(w, node.parent);
      } else {
        assert NodeOk(w, i);
        forall c | c in w.plays[i].children
          ensures c != w.next
        {
          assert NodeOk(w, c);
        }
      }
    }
  }

  /** An object with a larger id than any existing object is not yet a
      child of anything. */
  lemma NotYetListed(w: World, parent: nat)
    requires Valid(w) && parent in w.plays
    ensures parent < w.next
    ensures forall c :: c in w.plays[parent].children ==> c < w.next
  {
    assert NodeOk(w, parent);
    forall c | c in w.plays[parent].children
      ensures c < w.next
    {
      assert NodeOk(w, c);
    }
  }

  /** Appending an object that points at `parent` and is not yet listed
      keeps the tree valid. */
  lemma AttachKeepsValid(w: World, parent: nat, child: nat)
    requires Valid(w) && parent in w.plays && child in w.plays
    requires parent < child && w.plays[child].parent == parent
    requires child !in w.plays[parent].children
    ensures Valid(w.(plays := w.plays[parent := Attached(w.plays[parent], child)]))
  {
    var r := w.(plays := w.plays[parent := Attached(w.plays[parent], child)]);
    forall i | i in r.plays
      ensures NodeOk(r, i)
    {
      assert NodeOk(w, i);
    }
  }

  // ------------------------------------------------------------- the pool

  /** A `make` succeeds exactly when the pool holds a cell for every object
      of the subtree; it then takes that many cells from the front and
      registers four lerpables per object. A failing `make` has emptied the
      pool. */
  lemma {:induction false} MakeUsesOneCellPerObject(w: World, pool: seq<Cell>, parent: Option<nat>, spec: Spec)
    requires parent.Some? ==> parent.value in w.plays
    decreases Rank(spec.kind), 1
    ensures var m := Make(w, pool, parent, spec);
            && (m.id.Some? <==> |pool| >= Size(spec.kind))
            && (m.id.Some? ==> m.pool == pool[Size(spec.kind)..] && |m.w.lerpables| == |w.lerpables| + 4 * Size(spec.kind))
            && (m.id.None? ==> m.pool == [])
  {
    var c := Construct(w, pool, parent, spec);
    if c.id.Some? {
      SizeCountsInit(spec.kind);
      HooksUseOneCellPerObject(c.w, c.pool, w.next, spec.kind, InitSpecs(spec.kind));
      assert c.pool == pool[1..];
    }
  }

  lemma {:induction false} HooksUseOneCellPerObject(w: World, pool: seq<Cell>, owner: nat, kind: Kind, specs: seq<Spec>)
    requires owner in w.plays
    requires forall j :: 0 <= j < |specs| ==> Rank(specs[j].kind) < Rank(kind)
    decreases Rank(kind), 0, |specs|
    ensures var m := Hooks(w, pool, owner, kind, specs);
            && (m.id.Some? <==> |pool| >= SizeAll(specs))
            && (m.id.Some? ==> m.pool == pool[SizeAll(specs)..] && |m.w.lerpables| == |w.lerpables| + 4 * SizeAll(specs))
            && (m.id.None? ==> m.pool == [])
  {
    if specs != [] {
      var rest := specs[1..];
      MakeUsesOneCellPerObject(w, pool, Some(owner), specs[0]);
      var m := Make(w, pool, Some(owner), specs[0]);
      var n := Size(specs[0].kind);
      assert SizeAll(specs) == n + SizeAll(rest);
      if m.id.Some? {
        assert Hooks(w, pool, owner, kind, specs) == Hooks(m.w, m.pool, owner, kind, rest);
        HooksUseOneCellPerObject(m.w, m.pool, owner, kind, rest);
        if |pool| >= SizeAll(specs) {
          assert pool[n..][SizeAll(rest)..] == pool[SizeAll(specs)..];
        }
      }
    }
  }

  // ------------------------------------------------------- the new object

  /** From position `from` on, the children of `owner` are of the kinds
      `specs` lists, in order. */
  predicate ListedKinds(w: World, owner: nat, from: nat, specs: seq<Spec>)
    requires owner in w.plays
  {
    var cs := w.plays[owner].children;
    |cs| == from + |specs| &&
    forall k :: from <= k < |cs| ==> cs[k] in w.plays && w.plays[cs[k]].kind == specs[k - from].kind
  }

  /** The objects an `_init` hook makes are appended to its owner's list in
      the order of the `make` calls, each of the kind asked for. */
  lemma {:induction false} HooksAppendInOrder(w: World, pool: seq<Cell>, owner: nat, kind: Kind, specs: seq<Spec>)
    requires Valid(w) && owner in w.plays
    requires forall j :: 0 <= j < |specs| ==> Rank(specs[j].kind) < Rank(kind)
    requires Hooks(w, pool, owner, kind, specs).id.Some?
    decreases |specs|
    ensures ListedKinds(Hooks(w, pool, owner, kind, specs).w, owner, |w.plays[owner].children|, specs)
  {
    if specs != [] {
      var m1 := Make(w, pool, Some(owner), specs[0]);
      var id := m1.id.value;
      var before := w.plays[owner].children;
      KeysBelowNext(w);
      assert Valid(m1.w) && m1.w.plays[owner].children == before + [id]
             && id in m1.w.plays && id != owner && m1.w.plays[id].kind == specs[0].kind by {
        MakeKeepsValid(w, pool, Some(owner), specs[0]);
      }
      var m := Hooks(m1.w, m1.pool, owner, kind, specs[1..]);
      assert Hooks(w, pool, owner, kind, specs) == m;
      HooksAppendInOrder(m1.w, m1.pool, owner, kind, specs[1..]);
      assert m.w.plays[id] == m1.w.plays[id] && m.w.plays[owner].children[|before|] == id by {
        HooksKeepsValid(m1.w, m1.pool, owner, kind, specs[1..]);
      }
      ListedKindsStep(m.w, owner, |before|, specs, id);
    }
  }

  lemma ListedKindsStep(w: World, owner: nat, from: nat, specs: seq<Spec>, id: nat)
    requires owner in w.plays && specs != []
    requires ListedKinds(w, owner, from + 1, specs[1..])
    requires from < |w.plays[owner].children| && w.plays[owner].children[from] == id
    requires id in w.plays && w.plays[id].kind == specs[0].kind
    ensures ListedKinds(w, owner, from, specs)
  {
    var cs := w.plays[owner].children;
    forall k | from < k < |cs|
      ensures cs[k] in w.plays && w.plays[cs[k]].kind == specs[k - from].kind
    {
      assert specs[1..][k - (from + 1)] == specs[k - from];
    }
  }

  /** A successful `make` gives the new object the next id, the requested
      kind and parent (itself for the root), the four handles just past the
      old end of the registry, and the first cell of the pool. */
  lemma MakeGivesFreshObject(w: World, pool: seq<Cell>, parent: Option<nat>, spec: Spec)
    requires Valid(w)
    requires parent.Some? ==> parent.value in w.plays
    requires Make(w, pool, parent, spec).id.Some?
    ensures MadeFresh(w, pool, parent, spec, Make(w, pool, parent, spec))
  {
    var c := Construct(w, pool, parent, spec);
    var id := w.next;
    KeysBelowNext(w);
    assert Valid(c.w) by {
      ValidIgnoresLerpables(w, c.w.lerpables);
      AddNodeKeepsValid(w.(lerpables := c.w.lerpables), c.w.plays[id]);
      assert c.w == w.(lerpables := c.w.lerpables).(plays := w.plays[w.next := c.w.plays[id]], next := w.next + 1);
    }
    var m := Hooks(c.w, c.pool, id, spec.kind, InitSpecs(spec.kind));
    assert m.w.plays[id] == c.w.plays[id].(children := m.w.plays[id].children) by {
      HooksKeepsValid(c.w, c.pool, id, spec.kind, InitSpecs(spec.kind));
    }
  }

  /** Any `make`, even one that throws, first registers `Life(zero)` and a
      `Rigid` at rest at each of `t`, `r`, `s`, in that order, at the end of
      the registry, and never removes an entry. */
  lemma MakeRegistersFour(w: World, pool: seq<Cell>, parent: Option<nat>, spec: Spec)
    requires parent.Some? ==> parent.value in w.plays
    ensures var r := Make(w, pool, parent, spec);
            var h := |w.lerpables|;
            && |r.w.lerpables| >= h + 4 && r.w.lerpables[..h] == w.lerpables
            && r.w.lerpables[h..h + 4] == [Life(Zero3), RigidAt(spec.t), RigidAt(spec.r), RigidAt(spec.s)]
  {
    var c := Construct(w, pool, parent, spec);
    var r := Make(w, pool, parent, spec);
    var h := |w.lerpables|;
    assert r.w.lerpables[h..h + 4] == c.w.lerpables[h..h + 4];
  }

  /** After a successful `make`, the new object lists one child per `make`
      of its `_init`, of the kinds asked for, in order. */
  lemma MakeRunsInit(w: World, pool: seq<Cell>, parent: Option<nat>, spec: Spec)
    requires Valid(w)
    requires parent.Some? ==> parent.value in w.plays
    requires Make(w, pool, parent, spec).id.Some?
    ensures w.next in Make(w, pool, parent, spec).w.plays
    ensures ListedKinds(Make(w, pool, parent, spec).w, w.next, 0, InitSpecs(spec.kind))
  {
    var c := Construct(w, pool, parent, spec);
    var id := w.next;
    KeysBelowNext(w);
    ValidIgnoresLerpables(w, c.w.lerpables);
    AddNodeKeepsValid(w.(lerpables := c.w.lerpables), c.w.plays[id]);
    assert c.w == w.(lerpables := c.w.lerpables).(plays := w.plays[w.next := c.w.plays[id]], next := w.next + 1);
    var m := Hooks(c.w, c.pool, id, spec.kind, InitSpecs(spec.kind));
    HooksAppendInOrder(c.w, c.pool, id, spec.kind, InitSpecs(spec.kind));
    if parent.Some? {
      HooksKeepsValid(c.w, c.pool, id, spec.kind, InitSpecs(spec.kind));
      NotYetListed(w, parent.value);
      AttachKeepsListedKinds(m.w, parent.value, id, id, 0, InitSpecs(spec.kind));
    }
  }

  /** Appending to an older object's list does not change what a younger
      object lists. */
  lemma AttachKeepsListedKinds(w: World, parent: nat, child: nat, owner: nat, from: nat, specs: seq<Spec>)
    requires Valid(w) && parent in w.plays && owner in w.plays && parent < owner
    requires ListedKinds(w, owner, from, specs)
    ensures ListedKinds(w.(plays := w.plays[parent := Attached(w.plays[parent], child)]), owner, from, specs)
  {
    assert NodeOk(w, owner);
  }
}
