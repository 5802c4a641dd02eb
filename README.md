# 25barbara core, modelled in Dafny

The model covers the core of a small browser game engine written in TypeScript.

- **The fixed-step loop.** `my_loop` in `src/time.ts` adds each frame's time, capped at 0.025 s, to a remainder. It integrates every lerpable once per whole tick of `dt = 0.025`. It then renders a blend of the committed state and the state one tick ahead, weighted by `alpha = rem_dt / dt`. `on_interval` asks whether the last tick crossed a multiple of an interval.
- **The scene graph of `src/scenes2.ts`.** A `PlayState` holds one array of *lerpables*: values that can integrate one tick and interpolate towards a next state.
  - `Life` is a clock that grows by `dt` per tick. `Rigid` is a position with velocity and acceleration.
  - Every `Play` object registers four of them, in the order life, transform, rotation, scale, and keeps their *handles* (indices into the array). A setter deregisters the old handle and registers the new value at the end.
  - The objects form a tree:
    - `make` builds a child and runs its `init`, which borrows an atlas cell and builds the child's own children;
    - `integrate` visits the tree children first;
    - `render` pushes one draw element per object, placed at the object's world position and rotation (the sums along the parent chain);
    - `remove` deregisters two handles, removes the children and splices the object out of its parent's list.
- **The CPU side of `src/graphics.ts`.** This is the pool of 256 128×128 cells of a 2048×2048 texture atlas, `push_el`, and the vertex buffer (5 floats per corner) and 16-bit index buffer that `draw` builds for all pending elements.
- **The older object tree of `src/play.ts`.** It has children, a `life` counter, countdowns (`sched`) that fire their callback once less than `dt` is left, and a `draw` that skips invisible subtrees.
- **The 2D value types of `src/math.ts`:**
  - `Vec2`;
  - the affine `Matrix`, whose methods update it in place;
  - `Rectangle` and `Quad`.

## How the model is built

- **Pure code is modelled by functions.** This covers the math helpers, the lerpables and the countdowns. The scene tree is modelled as a value (`Scenes.World`): the lerpable array, plus a map from object identity to that object's fields, plus the next identity. The operations on it are functions (`SceneMake`, `SceneRemove`, `SceneRender`), and the lemmas are stated about those functions.
- **State changed in place is modelled by classes.** The classes are `Time.Clock`, `Time.Loop`, `Graphics.Graphics`, `Math.Matrix`, `SceneGraph.PlayState` and `LegacyPlay.Plays`. Each method is proved to leave exactly the state that the corresponding function computes, so the lemmas about the function apply to the object.
- **Loops stay loops.** These are the pool-filling loop, the buffer-filling loops, the `forEach` over children and the tick loop. Each is a `while` loop proved with invariants.
- **Calls into code outside the model become parameters or recorded events.** WebGL, the canvas, `Mat4`, `Quat`, `Billboard.unit.transform` and the game's hooks are handled this way.
- Numbers are exact reals. The 16-bit store into `Uint16Array` is written out as a wrap-around (`Graphics.ToU16`).

Some behaviour of the code is easy to misread. The model follows the code:

- `draw` emits the pending elements in the order they were pushed (`Graphics.VertexBufferAt`).
- `Rectangle.larger(n)` moves the top-left corner out by `n` and grows the width and height by `n`, so the far edges stay where they were (`Math.LargerKeepsFarEdges`).
- `Matrix.scale(x, y)` sets `a` to `x` and `d` to `y` and keeps the other entries (`Math.Scaled`).
- A countdown with exactly `dt` left neither fires nor stays (`LegacyPlay.Countdown`).

Several more consequences of the code as written are modelled and proved:

- **`remove` leaves half the children listed.** `forEach` walks the array that each child's `remove()` splices, so only the children at even positions are removed. The odd ones stay listed (`SceneRemove.RemoveKeepsOddChildren`).
- **`remove` on an object not in its parent's list drops the parent's last child.** This includes the root, which is its own parent: `indexOf` gives -1 and `splice(-1, 1)` drops the last entry.
- **Handles go stale.** `deregister_lerpable` shifts every later handle down by one (`Scenes.DeregisterShiftsLaterHandles`), but the handles that objects hold are not adjusted.
- **`render` always throws.** It calls `g.begin_rect` and `g.end_rect`, which `Graphics` does not define (see Findings).

## Model

| member | source | states |
|---|---|---|
| Common.Add3 | src/scenes2.ts:151-156 | the sum taken along the parent chain: subtracting one summand gives back the other, coordinate by coordinate |
| Common.IndexOf | src/scenes2.ts:239 | `indexOf` is -1 exactly when the value is absent, and otherwise the first position holding it |
| Common.SpliceOneEffect | src/scenes2.ts:333-335 | `splice(n, 1)` drops position `n` and keeps the order of the rest; past the end it changes nothing; at -1 it drops the last entry |
| Common.SpliceOneShrinks | src/scenes2.ts:239 | a splice never adds an entry: the result's multiset is contained in the input's |
| Common.SpliceIndexOfRemoves | src/scenes2.ts:239 | splicing at `indexOf(x)` of a list holding `x` removes exactly one `x` |
| Common.SpliceOneKeepsDistinct | src/scenes2.ts:239 | a list of children without repeats keeps none after any splice |
| Common.IndexOfDistinct | src/play.ts:65 | in a list without repeats, `indexOf` of the entry at `k` is `k` |
| Math.LengthSquared | src/math.ts:19-21 | `length_squared` is never negative |
| Math.LengthSquaredIsDot | src/math.ts:19-21 | `length_squared` is the dot product of a vector with itself |
| Math.SubUndoesAdd | src/math.ts:64-70 | `sub` undoes `add` and `add` undoes `sub` |
| Math.PerpendicularProperties | src/math.ts:33-35 | the perpendicular is orthogonal to the vector, has the same squared length, and applied twice negates it |
| Math.CrossIsPerpendicularDot | src/math.ts:48-54 | `cross(u, v)` is the dot of `u`'s perpendicular with `v`; it is antisymmetric and zero on equal vectors |
| Math.Translated | src/math.ts:176-184 | after `translate(x, y)` every point maps to its old image plus `(x, y)` |
| Math.Scaled | src/math.ts:186-190 | `scale(x, y)` sets `a` to `x` and `d` to `y` and keeps `b`, `c`, `tx`, `ty`; on a matrix with no shear, points then map to `(x, y) * v + (tx, ty)`, so the old scale is replaced and not multiplied |
| Math.ComposeApplies | src/math.ts:208-218 | the matrix `p.mul(m)` leaves maps each point as `m` then `p` do |
| Math.IdentityFixes | src/math.ts:98 | the identity matrix maps every point to itself |
| Math.InverseUndoesApply | src/math.ts:121-134 | for a non-zero determinant, `inverse` maps every image back to its point |
| Math.ProjectionCorners | src/math.ts:102-112 | `projection(w, h)` sends pixel (0, 0) to clip (-1, 1) and (w, h) to (1, -1) |
| Math.Matrix.constructor | src/math.ts:141-153 | the six fields are the arguments |
| Math.Matrix.Translate | src/math.ts:176-184 | the matrix becomes `Translated` of its old value, and the call returns the same object |
| Math.Matrix.Scale | src/math.ts:186-190 | the matrix becomes `Scaled` of its old value, and the call returns the same object |
| Math.Matrix.Mul | src/math.ts:208-218 | for a distinct argument, the matrix becomes the composition: `m` applied first, then the old matrix |
| Math.MakeRect | src/math.ts:293-299 | `Rectangle.make` builds four corners |
| Math.MakeRectReadsBack | src/math.ts:293-324 | the getters of `make(x, y, w, h)` give back `x`, `y`, `w`, `h`; the centre is the midpoint of corners 0 and 2 |
| Math.Larger | src/math.ts:337-340 | `larger` gives a rectangle the getters can read |
| Math.LargerKeepsFarEdges | src/math.ts:337-340 | `larger(n)` moves the top-left corner out by `n` and leaves the far edges where they were |
| Math.Transform | src/math.ts:344-346 | `transform` keeps the number of vertices |
| Math.TransformCompose | src/math.ts:344-346 | transforming by `m` and then by `p` is transforming once by `p.mul(m)` |
| Math.TranslateKeepsSize | src/math.ts:344-346 | a translation moves the corner and keeps width and height |
| Math.VertexData | src/math.ts:326-330 | `vertex_data` holds two numbers per vertex |
| Math.VertexDataAt | src/math.ts:326-330 | entries `2i` and `2i+1` of `vertex_data` are vertex `i`'s x and y |
| Math.Frame | src/math.ts:271-275 | the normalised frame keeps the pixel frame's corners readable |
| Math.QuadMakeUv | src/math.ts:246-288 | `Quad.make` gives uv data of top-left, top-right, bottom-right, bottom-left divided by the texture size, with `w` and `h` the pixel size |
| Time.Clock.constructor | src/time.ts:1-5 | the remainder and the game time start at 0 |
| Time.CrossesIffMarkInLastTick | src/time.ts:6-12 | for a positive interval, `on_interval` holds exactly when some `offset + k * interval` lies in `(time - dt, time]` |
| Time.CrossingMark | src/time.ts:6-12 | when `on_interval` holds, there is such a point |
| Time.MarkCrosses | src/time.ts:6-12 | any such point makes `on_interval` hold |
| Time.FrameTime | src/time.ts:30-31 | the frame time is at most 0.025; it is 0 on the first frame, the elapsed time when that is small, and never negative for increasing timestamps |
| Time.RemainderBounds | src/time.ts:38-42 | after the tick loop less than `dt` remains, never below 0 for a non-negative start, and a remainder already below `dt` is untouched |
| Time.TicksIsFloor | src/time.ts:38-42 | the loop runs `floor(rem / dt)` times |
| Time.AtMostOneTick | src/time.ts:30-42 | because the frame time is capped at `dt`, a step runs at most one tick |
| Time.IntegrateAll | src/time.ts:39 | the `map` integrates every lerpable in place |
| Time.Advance | src/time.ts:38-42 | the ticks keep the number of lerpables |
| Time.AdvanceAdds | src/time.ts:38-42 | `m` ticks followed by `n` ticks are `m + n` ticks |
| Time.Blend | src/time.ts:43-47 | the rendered list is each lerpable lerped towards its own integration by `alpha` |
| Time.State.constructor | src/time.ts:20-24 | the state holds the given lerpables |
| Time.Loop.constructor | src/time.ts:26-28 | the loop starts with no previous timestamp |
| Time.Loop.Step | src/time.ts:29-53 | one `step(t)`: records `t`, runs `floor(rem / dt)` ticks that advance time and lerpables, keeps the remainder, renders the blend at `rem / dt` once, and leaves the committed list in place |
| Time.Loop.CatchUp | src/time.ts:38-42 | the tick loop: one tick event per whole `dt`, time advanced by that much, lerpables integrated that often, remainder below `dt` |
| Time.StepKeepsAlphaInRange | src/time.ts:30-45 | starting from a remainder in `[0, dt)`, a step runs at most one tick and renders with `alpha` in `[0, 1)` |
| Lerpables.Lerp | src/scenes2.ts:6-8 | `lerp` is `a` at 0 and `b` at 1, and moves from `a` by `t` times the difference |
| Lerpables.LerpBetween | src/scenes2.ts:6-8 | for `t` in `[0, 1]` the result lies between the ends |
| Lerpables.Appr | src/scenes2.ts:10-18 | `appr` moves by at most `by`, never overshoots the target, never moves away, and either reaches the target or moves by exactly `by` |
| Lerpables.ApprNReaches | src/scenes2.ts:10-18 | repeated `appr` reaches the target once the steps cover the distance |
| Lerpables.CollideRectMeansSharedPoint | src/scenes2.ts:22-27 | for rectangles of positive size, `collide_rect` is symmetric and holds exactly when the open rectangles share a point |
| Lerpables.Vec3Lerp | src/scenes2.ts:29-34 | `vec3_lerp` is `lerp` on each coordinate: `a` at 0 and `b` at 1 |
| Lerpables.Integrate | src/scenes2.ts:48-87 | integrating keeps the kind; a `Life` gains `dt` in every coordinate; a `Rigid` moves by `dposition * dt + ddposition * dt²/2`, each acceleration coordinate moves towards zero by at most `dt * 20` and never grows in size, and the velocity is damped by 0.8 and pushed by the mean of the old and new accelerations times `dt` |
| Lerpables.LerpState | src/scenes2.ts:89-95 | `lerp` keeps the kind, and its value is `vec3_lerp` of the two values |
| Lerpables.BlendEnds | src/scenes2.ts:55-95 | lerping towards the integrated state gives the current state at alpha 0 and the integrated one at alpha 1 |
| Lerpables.IntegrateN | src/time.ts:38-42 | ticks keep the kind |
| Lerpables.LifeCountsTicks | src/scenes2.ts:48-53 | any `Life` gains `n * dt` in every coordinate over `n` ticks |
| Lerpables.RestingRigidStays | src/scenes2.ts:68-87 | a `Rigid` at rest stays where it is |
| Lerpables.AccelerationDiesAway | src/scenes2.ts:78-80 | the acceleration reaches zero once `n * dt * 20` covers each of its coordinates |
| Lerpables.AccelAfter | src/scenes2.ts:78-80 | after `n` ticks each acceleration coordinate is `n` steps of `appr` towards 0 by `dt * 20` |
| Graphics.Grid | src/graphics.ts:116-121 | the pool holds 256 cells, column by column, 128 apart |
| Graphics.GridIsAtlas | src/graphics.ts:116-121 | the pool's cells are distinct and are exactly the 128-aligned cells of the 2048 atlas |
| Graphics.SmallFitsU16 | src/graphics.ts:207 | a value below 65536 is stored in the index buffer unchanged |
| Graphics.UvData | src/graphics.ts:188-193 | eight uv numbers per element |
| Graphics.UvOnAtlasInUnitSquare | src/graphics.ts:188-193 | for a cell of the atlas every uv number lies in `[0, 1]` |
| Graphics.Interleave | src/graphics.ts:197-204 | 20 floats per element |
| Graphics.InterleaveGroup | src/graphics.ts:197-204 | corner `g` takes floats `5g..5g+5`: its three coordinates, then its two uv numbers |
| Graphics.ElementVertices | src/graphics.ts:195-204 | an element contributes 20 vertex floats |
| Graphics.ElementIndices | src/graphics.ts:206-208 | element `i` contributes six indices, each `4i` plus the quad's index, stored as 16 bits |
| Graphics.VertexBuffer | src/graphics.ts:176-209 | the vertex buffer holds 20 floats per element |
| Graphics.IndexBuffer | src/graphics.ts:176-209 | the index buffer holds 6 indices per element |
| Graphics.VertexBufferAt | src/graphics.ts:197-204 | floats `20i..20i+20` are element `i`'s |
| Graphics.BuffersGrow | src/graphics.ts:184-209 | one more element appends its vertices and indices to both buffers |
| Graphics.IndexBufferAt | src/graphics.ts:206-208 | index `6i+k` is `4i` plus the quad's `k`-th index, as 16 bits |
| Graphics.IndicesDoNotWrap | src/graphics.ts:206-208 | with at most 16384 elements, the 16-bit indices do not wrap |
| Graphics.Shift | src/graphics.ts:126-128 | `shift` gives nothing on an empty pool, and otherwise the first cell and the rest |
| Graphics.BorrowReturnsReleased | src/graphics.ts:126-132 | a cell released into an empty pool is the next one borrowed |
| Graphics.BorrowThenReleaseKeepsCells | src/graphics.ts:126-132 | borrowing and then releasing keeps the pool's multiset of cells |
| Graphics.Graphics.constructor | src/graphics.ts:116-121 | the nested loop fills the pool with exactly `Grid()`, and nothing is pending |
| Graphics.Graphics.BorrowTextureSpace | src/graphics.ts:126-128 | `borrow_texture_space` takes the first cell, or nothing, and leaves the rest |
| Graphics.Graphics.ReleaseTextureSpace | src/graphics.ts:130-132 | the cell goes at the end of the pool |
| Graphics.Graphics.PushEl | src/graphics.ts:138-151 | the element (placement and cell) goes at the end of the pending list |
| Graphics.Graphics.Draw | src/graphics.ts:169-223 | fresh buffers equal to the vertex and index buffers of all pending elements, then nothing is pending and the pool is untouched |
| Graphics.Graphics.FillBuffers | src/graphics.ts:184-209 | the `forEach` fills the arrays with the vertex and index buffers |
| Graphics.Graphics.FillElement | src/graphics.ts:184-209 | one turn of the `forEach` extends the filled prefix by one element |
| Graphics.Graphics.WriteVertices | src/graphics.ts:197-204 | the corner loop writes the interleaved 20 floats at `a_index` and leaves what lies before it |
| Graphics.Graphics.WriteVertex | src/graphics.ts:198-203 | one corner: three coordinates, then uv `k/3*2` and `k/3*2+1` |
| Graphics.Graphics.WriteIndices | src/graphics.ts:206-208 | the index loop writes the element's six indices at `i_index` and leaves what lies before it |
| Scenes.Register | src/scenes2.ts:329-331 | `register_lerpable` appends and returns the new last index |
| Scenes.Deregister | src/scenes2.ts:333-335 | deregistering changes only the lerpable array |
| Scenes.Get | src/scenes2.ts:337-339 | `get_lerpable` finds something exactly for an index inside the array |
| Scenes.RegisterThenGet | src/scenes2.ts:329-339 | the returned handle gets the registered lerpable back, and older handles are unaffected |
| Scenes.DeregisterShiftsLaterHandles | src/scenes2.ts:333-339 | deregistering `h` keeps handles below `h` and shifts every later one down by one |
| Scenes.DeregisterKeepsValid | src/scenes2.ts:333-335 | deregistering keeps the tree well formed |
| Scenes.WithHandle | src/scenes2.ts:110-145 | a setter changes its own handle and no other field of the object |
| Scenes.SetHandle | src/scenes2.ts:120-123 | a setter keeps the set of objects and the next identity |
| Scenes.SetterReplacesAtEnd | src/scenes2.ts:120-144 | after a setter, the object's handle is the last index and finds the new value; the array keeps its length when the old handle was valid and grows by one otherwise |
| Scenes.SetHandleKeepsValid | src/scenes2.ts:120-144 | setters keep the tree well formed |
| Scenes.Ancestors | src/scenes2.ts:151-167 | the parent chain starts at the object and lists existing objects only |
| Scenes.Locals | src/scenes2.ts:151-167 | one local value per object of the chain, when every handle is valid |
| Scenes.WorldSumIsChainSum | src/scenes2.ts:151-167 | `world_position` and `world_rotation` are defined exactly when every local value along the parent chain is, and are then their sum |
| Scenes.ChildOfRootPosition | src/scenes2.ts:151-156 | a child of the root sits at its local position plus the root's |
| Scenes.PostOrder | src/scenes2.ts:214-217 | `integrate` visits the object last, and only it and younger objects |
| Scenes.PostOrderAll | src/scenes2.ts:214-217 | the children's visits reach only objects younger than the parent |
| Scenes.ChildrenUpdateFirst | src/scenes2.ts:214-217 | every child is visited before its parent |
| Scenes.InPostOrderAll | src/scenes2.ts:214-217 | every listed child is visited |
| Scenes.Many | src/scenes2.ts:177-179 | `many` lists exactly the children of the given kind |
| Scenes.OfKind | src/scenes2.ts:177-179 | the `filter` keeps exactly the entries of the kind and never grows |
| Scenes.One | src/scenes2.ts:183-185 | `one` finds nothing exactly when no child has the kind, and otherwise finds a child of that kind |
| Scenes.FirstOfKind | src/scenes2.ts:183-185 | the `find` finds nothing exactly when no entry has the kind, and otherwise finds an entry of it |
| Scenes.OneIsFirstOfMany | src/scenes2.ts:177-185 | `one` is the first entry of `many` |
| Scenes.FirstIsHead | src/scenes2.ts:177-185 | `find` gives the head of `filter` |
| SceneMake.InitSpecs | src/scenes2.ts:279-301 | the objects an `_init` makes are of lower rank than their maker, so `make` terminates |
| SceneMake.SizeCountsInit | src/scenes2.ts:279-301 | an object of a kind stands for itself plus everything its `_init` makes |
| SceneMake.Construct | src/scenes2.ts:102-108 | the constructor registers life, transform, rotation and scale in that order at the end of the array; with a cell, the object gets the next identity, those four handles, its parent (itself for a root), the first cell and no children; without one, no object is added |
| SceneMake.Make | src/scenes2.ts:194-198 | `make` keeps every object and every registered lerpable |
| SceneMake.Hooks | src/scenes2.ts:208-212 | running `_init` keeps every object and every registered lerpable |
| SceneMake.MakeKeepsValid | src/scenes2.ts:187-198 | `make` keeps the tree well formed, changes only the parent (which gets the child appended), and the new object has the next identity and the kind asked for |
| SceneMake.BuiltKeepsValid | src/scenes2.ts:187-198 | the same for a non-empty pool |
| SceneMake.ConstructKeepsValid | src/scenes2.ts:102-108 | the constructor keeps the tree well formed and leaves existing objects alone |
| SceneMake.HooksKeepsValid | src/scenes2.ts:208-212 | `_init` keeps the tree well formed and changes only its object's list of children, which it extends |
| SceneMake.AddNodeKeepsValid | src/scenes2.ts:187-192 | a new object without children keeps the tree well formed |
| SceneMake.AttachKeepsValid | src/scenes2.ts:194-198 | pushing a new child onto its parent's list keeps the tree well formed |
| SceneMake.MakeUsesOneCellPerObject | src/scenes2.ts:208-212 | `make` succeeds exactly when the pool holds one cell per object built, uses that many cells, and registers four lerpables per object |
| SceneMake.HooksUseOneCellPerObject | src/scenes2.ts:208-212 | the same for an `_init`'s list of objects |
| SceneMake.HooksAppendInOrder | src/scenes2.ts:294-301 | `_init` appends its objects to the list of children in the order it makes them |
| SceneMake.MakeGivesFreshObject | src/scenes2.ts:187-198 | a successful `make` gives a new object with the next identity and the four fresh handles |
| SceneMake.MakeRegistersFour | src/scenes2.ts:102-108 | `make` first registers life, a rigid at `t`, one at `r` and one at `s`, after all existing lerpables |
| SceneMake.MakeRunsInit | src/scenes2.ts:187-212 | after `make` the new object lists the children its `_init` makes, of the kinds in order |
| SceneRemove.RemoveNode | src/scenes2.ts:235-241 | `remove` keeps the tree well formed and keeps every object record |
| SceneRemove.Strip | src/scenes2.ts:236-237 | the two deregistrations change only the lerpable array |
| SceneRemove.RemoveChildren | src/scenes2.ts:238 | the `forEach` of `remove` keeps the tree well formed |
| SceneRemove.DetachKeepsValid | src/scenes2.ts:239 | the splice out of the parent keeps the tree well formed |
| SceneRemove.RemoveNodeFrame | src/scenes2.ts:235-241 | `remove` changes only lists of children, leaves older objects except the parent alone, and splices the parent's list at `indexOf` |
| SceneRemove.RemoveChildrenFrame | src/scenes2.ts:238 | the `forEach` changes only lists of children and leaves older objects alone |
| SceneRemove.VisitedAllIsOdds | src/scenes2.ts:238 | a `forEach` whose visits each splice out the visited entry leaves exactly the entries at odd positions |
| SceneRemove.VisitedClosedForm | src/scenes2.ts:238 | after `k` such visits, the walked part is reduced to its odd entries and the rest is untouched |
| SceneRemove.ForEachStep | src/scenes2.ts:238 | visit `k` meets the original entry `2k` and splices it out; past the end a visit does nothing |
| SceneRemove.RemoveChildrenVisits | src/scenes2.ts:238 | the children's `remove` calls leave the list as the visits predict |
| SceneRemove.RemoveKeepsOddChildren | src/scenes2.ts:235-241 | after `remove`, the object still lists its children at odd positions (a root also loses the last of them to `splice(-1, 1)`) |
| SceneRemove.DetachedOwnList | src/scenes2.ts:239 | splicing out of the parent touches the object's own list only when it is its own parent, by dropping its last entry |
| SceneRemove.RemoveDetachesFromParent | src/scenes2.ts:239 | a listed object is spliced out of its parent's list, with the others in order; an unlisted one makes the parent drop its last child |
| SceneRemove.SpliceOutListed | src/scenes2.ts:239 | splicing a listed entry at `indexOf` drops exactly that entry |
| SceneRemove.RemoveLeafDeregistersTwo | src/scenes2.ts:236-237 | removing an object without children deregisters its transform, then its life, and nothing else |
| SceneRemove.RemoveNeverRegisters | src/scenes2.ts:235-241 | `remove` never adds a lerpable |
| SceneRender.GoldDraw | src/scenes2.ts:256-259 | `Gold._draw` throws unless its life and rotation handles are valid and the rotation holds a `Rigid`; otherwise it sets that rigid's `z` to 0.1 and changes nothing else |
| SceneRender.RenderNode | src/scenes2.ts:219-232 | `render` changes only lerpable values, never their number |
| SceneRender.DrawSelf | src/scenes2.ts:225-231 | the object's own hook and `push_el` change only lerpable values |
| SceneRender.RenderAll | src/scenes2.ts:222 | the children's `render` calls change only lerpable values |
| SceneRender.DrawSelfPushesOne | src/scenes2.ts:225-231 | the object pushes one element with its own cell; a `Scene` hands all pending elements plus its own to `g.draw()` and empties the list; no other kind draws |
| SceneRender.RenderFollowsPostOrder | src/scenes2.ts:219-232 | a render that returns pushes one element per object of the subtree, in the order `integrate` visits them, each with its own cell |
| SceneRender.GoldDrawsAtDepth | src/scenes2.ts:256-259 | a `Gold` leaves its rotation at `z = 0.1` and is pushed with rotation `z` of 0.1 plus its parent's world rotation |
| SceneRender.NoSceneKeepsDrawn | src/scenes2.ts:219-232 | a subtree without a `Scene` never calls `g.draw()` |
| SceneRender.NoSceneChildrenPend | src/scenes2.ts:219-232 | such children's elements all wait in the pending list, in visiting order |
| SceneRender.SceneDrawsWholeTree | src/scenes2.ts:303-309 | a `Scene` over objects of other kinds draws the whole tree in one `g.draw()`, in visiting order, and leaves nothing pending |
| SceneRender.RenderAsWrittenThrows | src/scenes2.ts:219-232 | as written, every `render` throws at `g.begin_rect` before anything is pushed or drawn |
| SceneRender.RenderAllAsWrittenThrows | src/scenes2.ts:222 | as written, the children's loop throws unless there are no children |
| SceneGraph.PlayState.constructor | src/scenes2.ts:341 | the lerpable array starts empty, with no objects |
| SceneGraph.PlayState.RegisterLerpable | src/scenes2.ts:329-331 | the array and the handle are those of `Register` |
| SceneGraph.PlayState.DeregisterLerpable | src/scenes2.ts:333-335 | the array becomes that of `Deregister` |
| SceneGraph.PlayState.GetLerpable | src/scenes2.ts:337-339 | returns the entry at the index exactly when the index is inside the array |
| SceneGraph.PlayState.SetHandle | src/scenes2.ts:120-144 | the state becomes that of the setter function |
| SceneGraph.PlayState.Make | src/scenes2.ts:194-198 | the state, pool and result are those of `SceneMake.Make` |
| SceneGraph.PlayState.Construct | src/scenes2.ts:187-192 | the state, pool and result are those of `SceneMake.Construct` |
| SceneGraph.PlayState.Init | src/scenes2.ts:208-212 | the state and pool are those of running the kind's `_init` |
| SceneGraph.PlayState.Integrate | src/scenes2.ts:214-217 | the objects are visited in `PostOrder` |
| SceneGraph.PlayState.Render | src/scenes2.ts:219-232 | the registry, pending elements and drawn elements are those of `RenderNode`, and the pool is untouched |
| SceneGraph.PlayState.DrawSelf | src/scenes2.ts:225-231 | the same for `DrawSelf` |
| SceneGraph.PlayState.Remove | src/scenes2.ts:235-241 | the state becomes that of `RemoveNode` |
| SceneGraph.PlayState.RemoveChildren | src/scenes2.ts:238 | the `forEach` loop leaves the state of `RemoveChildren` |
| SceneGraph.PlayState.RemoveChildAt | src/scenes2.ts:238 | one visit of the loop removes the child at that position, when it still exists |
| LegacyPlay.Decremented | src/play.ts:87-91 | the `map` keeps the number of countdowns |
| LegacyPlay.DecrementedAt | src/play.ts:87-91 | each countdown loses `dt` in place |
| LegacyPlay.FiredIffDue | src/play.ts:87-92 | a callback runs exactly when its countdown had less than `dt` left, and there are no more runs than countdowns |
| LegacyPlay.PositiveKeepsTimeLeft | src/play.ts:92 | the `filter` keeps exactly the countdowns with time left and never grows the list |
| LegacyPlay.KeptIffMoreThanDt | src/play.ts:87-92 | a countdown stays, `dt` shorter, exactly when more than `dt` was left |
| LegacyPlay.ExactlyDtIsDropped | src/play.ts:87-92 | a countdown with exactly `dt` left is dropped without its callback running |
| LegacyPlay.SingleEntry | src/play.ts:87-92 | the fate of one countdown: it runs below `dt`, it stays above `dt`, and otherwise it vanishes |
| LegacyPlay.CountdownSplits | src/play.ts:87-92 | countdowns are handled one by one, in order |
| LegacyPlay.Countdown | src/play.ts:87-92 | the loops give exactly the callbacks that run and the countdowns that stay |
| LegacyPlay.UpdateNode | src/play.ts:80-95 | `update` changes only `life` and the countdowns |
| LegacyPlay.UpdateAll | src/play.ts:84 | the children's `update` calls change only `life` and the countdowns |
| LegacyPlay.UpdateLeavesOlder | src/play.ts:80-95 | `update` touches only the object and younger ones |
| LegacyPlay.UpdateTicksOnce | src/play.ts:85-92 | `update` adds exactly `dt` to the object's own `life` and counts its countdowns down once |
| LegacyPlay.UpdateEventsBracket | src/play.ts:80-95 | `_first_update` comes first exactly when `life` was 0, and `_update` comes last |
| LegacyPlay.UpdateEventsYounger | src/play.ts:80-95 | the hooks `update` calls belong to the object or younger ones |
| LegacyPlay.UpdateFollowsOrder | src/play.ts:80-95 | `_update` runs once per object of the subtree, children's subtrees in list order, then the object |
| LegacyPlay.DrawnMeansVisibleChain | src/play.ts:97-106 | only visible objects draw, and each one only within its parent's draw, so hiding an object hides its subtree |
| LegacyPlay.MakeChild | src/play.ts:47-58 | `make` adds a new object with the next identity, `life` 0, no children, its parent set, pushed at the end of the parent's list; nothing else changes |
| LegacyPlay.RemoveChild | src/play.ts:60-70 | `remove(p)` succeeds exactly when `p` is a child (and otherwise throws) and changes only the owner |
| LegacyPlay.RemoveChildDropsIt | src/play.ts:65-69 | it splices out exactly that child, keeps the others in order, and leaves it unlisted |
| LegacyPlay.RemoveUndoesMake | src/play.ts:54-70 | `remove()` on a freshly made object gives its parent back its old record |
| LegacyPlay.Plays.constructor | src/play.ts:31-34 | a root object with `life` 0 (from `init`), no children, no countdowns and no parent |
| LegacyPlay.Plays.Sched | src/play.ts:26-28 | the countdown goes at the end of the object's list, and nothing else changes |
| LegacyPlay.Plays.Make | src/play.ts:54-58 | the state becomes `MakeChild` and the new identity is returned |
| LegacyPlay.Plays.Remove | src/play.ts:60-70 | success and the new state are those of `Removed`; on the throw nothing changes |
| LegacyPlay.Plays.Update | src/play.ts:80-95 | the state and hook calls are those of `UpdateNode` |
| LegacyPlay.Plays.UpdateChildren | src/play.ts:84 | the loop over children leaves the state and hook calls of `UpdateAll` |
| LegacyPlay.Plays.UpdateChildAt | src/play.ts:84 | one turn of that loop updates the next child |
| LegacyPlay.Plays.Draw | src/play.ts:97-106 | the hook calls are `DrawTrace`, and nothing changes |

## Left out

- Time.Loop.Step: the model does not capture `requestAnimationFrame` or the clock that feeds it. The timestamp is a parameter, and each call is one frame.
- Time.Loop.Step: it models a `render` that returns. As written, `render` throws (see Findings), so the restore of the committed list and the next `requestAnimationFrame` would not run.
- `t_slow` in `src/time.ts` is never read and is not modelled.
- Time.Clock.OnInterval: the model requires a non-zero interval. A zero interval divides by zero in floating point.
- Math.LengthSquared: its own contract states only non-negativity. The value is tied to `dot` by `Math.LengthSquaredIsDot`.
- Math.Matrix.Mul: the contract does not cover `m.mul(m)`. That call reads entries it has already overwritten.
- Math.Inverse: it multiplies by the reciprocal of the determinant instead of dividing by it. The two agree on exact reals but not in floating point. It also requires a non-zero determinant: with a zero one the code divides by zero and fills the matrix with infinities or NaN, which exact reals cannot hold.
- Math.Projection: requires a non-zero width and height. With a zero one the code divides by zero and produces infinities, which exact reals cannot hold.
- Math.ValidQuad: requires a non-zero texture width and height for the same reason, since `frame` scales by their reciprocals.
- Floating point throughout: numbers are exact reals. `Float32Array` rounding is not modelled; only the 16-bit store is.
- Vector operations that need trigonometry or square roots are not modelled: `length`, `normalize`, `distance`, `angle`, `add_angle`, `Matrix.rotate`, `transform_in`, and `Circle`.
- `Vec2.clone`, `vs` and the static constants of `src/math.ts` are not modelled; they need no proof.
- `Rectangle.indices` is the constant `Math.QuadIndices` and has no contract of its own.
- `Mat4`, `Quat`, `Camera` and `Billboard` (module `math4`) are not part of this model. `push_el`'s matrix is kept as the placement it is built from (`Graphics.Placement`). `Billboard.unit.transform(matrix)` is a parameter of `draw`, assumed to give four corners and six indices.
- WebGL and the canvas are not modelled:
  - texture upload, buffer upload and `drawElements`;
  - `once`, `clear`, `clear_rect`;
  - `make_graphics`;
  - the DOM.
- `MAX_NB` and the sizes given to `bufferData` only size GPU buffers and are not modelled.
- The drawing done by the `_draw` hooks on the canvas (colours, rectangles, arcs) is not modelled. Only `Gold._draw`'s write to its rotation and the throws on its getters are.
- `_pre_draw` of a `Scene` calls `g.clear()`, a WebGL call; it has no effect on the model.
- `_update` and `_remove` are empty in every class of `src/scenes2.ts` and are not modelled.
- `_set_data` and `_data` (in both files) store an opaque value the core never reads.
- SceneGraph.PlayState.constructor: the source constructor also runs `new Scene(g, this)._set_data({}).init()`. In the model that is a following `PlayState.Make(None, …)` with the `Scene` kind.
- `SceneManager` wires the browser, the graphics and `my_loop` together, and is not modelled.
- The scale values that `render` passes after `ty` to `push_el` are dropped by the call, and the model drops them too.
- `Vec3.zero` and `Vec3.unit` (module `math4`) are getters returning fresh objects. The model treats them as values, so no aliasing arises.
- LegacyPlay: `many`, `one` and the `position` getter of `src/play.ts` are not modelled. The legacy model does not tell the subclasses apart, and `position` only reads `x` and `y`.
- LegacyPlay: the hooks and scheduled callbacks belong to subclasses outside the model. Those that `update` and `draw` call are recorded as events and assumed not to change the tree while `update` walks it. The `_init` hook that `init` calls is not recorded.
- LegacyPlay.MakeChild: `_init` is assumed to make, schedule and change nothing, as the base class's empty `_init` does (src/play.ts:109). A subclass whose `_init` makes children or schedules countdowns leaves a tree this function does not describe.
- LegacyPlay.Plays.constructor: the same assumption about the root's `_init`. The root is given `life` 0, no children and no countdowns.
- LegacyPlay.Plays.Make: the same assumption about the new object's `_init`, because the method is stated through `MakeChild`.
- LegacyPlay.Removed: a removed legacy object keeps its record in the map, unreachable, as the object itself outlives its removal in the source.

## Findings

| source | as written | input that shows it | evidently intended | confidence | as-written member | corrected member |
|---|---|---|---|---|---|---|
| src/scenes2.ts:219-232 | `render()` calls `this.g.begin_rect(tx, ty)` and `this.g.end_rect()`, which `Graphics` in `src/graphics.ts` does not define | any object, e.g. the root `Scene` in the first `render()`: the call throws a TypeError before `_draw`, `push_el` or `g.draw()` | the calls mark the object's atlas cell around `_draw` and do not stop the render; each object then pushes one element and the `Scene` draws them all | not executed | SceneRender.RenderAsWritten (shown by SceneRender.RenderAsWrittenThrows) | SceneRender.RenderNode (proved by SceneRender.RenderFollowsPostOrder and SceneRender.SceneDrawsWholeTree) |
