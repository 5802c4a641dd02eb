/** `remove()` of `src/scenes2.ts`: deregister the object's transform and
    life handles, remove each child with `forEach`, then splice the object
    out of its parent's list of children.

    Each child's own `remove()` splices it out of the very array the
    `forEach` walks. `forEach` fixes the number of visits at the start and
    skips positions that no longer exist, so removing the child at position
    `k` moves the next one to position `k` just before position `k + 1` is
    visited: only the children at even positions are removed, and the
    others stay listed by the removed object. */
module SceneRemove {
  import opened Common
  import opened Lerpables
  import opened Scenes

  /** `remove()` on object `id`. The root is its own parent and is not in
      its own list, so `indexOf` gives -1 and `splice(-1, 1)` drops the last
      entry of its own list. */
  function RemoveNode(w: World, id: nat): (r: World)
    requires Valid(w) && id in w.plays
    ensures Valid(r) && r.plays.Keys == w.plays.Keys && r.next == w.next
    decreases w.next - id, 1
  {
    var w1 := Strip(w, id);
    assert NodeOk(w, id);
    var w2 := RemoveChildren(w1, id, 0, |w.plays[id].children|);
    assert NodeOk(w2, id);
    var q := w2.plays[id].parent;
    DetachKeepsValid(w2, q, id);
    Detached(w2, q, id)
  }

  /** The two `deregister_lerpable` calls: the transform handle, then the
      life handle, each spliced out at the index the object holds. */
  function Strip(w: World, id: nat): (r: World)
    requires Valid(w) && id in w.plays
    ensures Valid(r) && r.plays == w.plays && r.next == w.next
  {
    var p := w.plays[id];
    var r := Deregister(Deregister(w, p.transform), p.life);
    ValidIgnoresLerpables(w, r.lerpables);
    assert r == w.(lerpables := r.lerpables);
    r
  }

  /** `this.forEach(_ => _.remove())` from position `k` on, over an array
      that had `len` entries when the loop started: position `k` is visited
      only while the array still has it. */
  function RemoveChildren(w: World, id: nat, k: nat, len: nat): (r: World)
    requires Valid(w) && id in w.plays
    ensures Valid(r) && r.plays.Keys == w.plays.Keys && r.next == w.next
    decreases w.next - id, 0, len - k
  {
    if k >= len then w
    else
      var cs := w.plays[id].children;
      if k < |cs| then
        assert NodeOk(w, id);
        assert NodeOk(w, cs[k]);
        RemoveChildren(RemoveNode(w, cs[k]), id, k + 1, len)
      else RemoveChildren(w, id, k + 1, len)
  }

  /** `RemoveNode` in the order the method takes its steps: strip, remove
      the children, splice out of the parent. */
  lemma RemoveNodeSteps(w: World, id: nat, w2: World)
    requires Valid(w) && id in w.plays
    requires w2 == RemoveChildren(Strip(w, id), id, 0, |w.plays[id].children|)
    ensures Valid(w2) && id in w2.plays && w2.plays[id].parent in w2.plays
    ensures RemoveNode(w, id) == Detached(w2, w2.plays[id].parent, id)
  {
    assert NodeOk(w2, id);
  }

  /** The state of the `forEach` over the children of `id` after `k` of
      its `len` visits: the visits left lead to the same world as the
      whole loop run from `w1`. */
  predicate RemoveLoop(w1: World, id: nat, k: nat, len: nat, w: World)
  {
    && Valid(w1) && id in w1.plays && k <= len
    && Valid(w) && id in w.plays && w.next == w1.next
    && RemoveChildren(w, id, k, len) == RemoveChildren(w1, id, 0, len)
  }

  /** One visit moves the loop on by one: `w'` is the world after it. */
  lemma RemoveLoopStep(w1: World, id: nat, k: nat, len: nat, w: World, w': World)
    requires RemoveLoop(w1, id, k, len, w) && k < len
    requires var cs := w.plays[id].children;
             if k < |cs| then cs[k] in w.plays && w' == RemoveNode(w, cs[k]) else w' == w
    ensures RemoveLoop(w1, id, k + 1, len, w')
  {
  }

  lemma RemoveLoopEnd(w1: World, id: nat, k: nat, len: nat, w: World)
    requires RemoveLoop(w1, id, k, len, w) && k >= len
    ensures Valid(w) && id in w.plays && w == RemoveChildren(w1, id, 0, len)
  {
  }

  /** `parent.children.splice(parent.children.indexOf(child), 1)`. */
  function Detached(w: World, parent: nat, child: nat): World
    requires parent in w.plays
  {
    var sib := w.plays[parent].children;
    w.(plays := w.plays[parent := w.plays[parent].(children := SpliceOne(sib, IndexOf(sib, child)))])
  }

  /** Splicing an entry out of a list of children keeps the tree valid. */
  lemma DetachKeepsValid(w: World, parent: nat, child: nat)
    requires Valid(w) && parent in w.plays
    ensures Valid(Detached(w, parent, child))
  {
    var sib := w.plays[parent].children;
    var n := IndexOf(sib, child);
    assert NodeOk(w, parent);
    SpliceOneShrinks(sib, n);
    SpliceOneKeepsDistinct(sib, n);
    var r := Detached(w, parent, child);
    forall i | i in r.plays
      ensures NodeOk(r, i)
    {
      assert NodeOk(w, i);
    }
  }

  // ---------------------------------------------------------- what changes

  /** Every object of `w` still exists in `r` with the same fields, except
      perhaps its list of children. */
  predicate OnlyChildrenChange(w: World, r: World)
  {
    forall i :: i in w.plays ==> i in r.plays && r.plays[i] == w.plays[i].(children := r.plays[i].children)
  }

  /** Every object older than `bound`, other than `except`, is unchanged. */
  predicate OlderUnchanged(w: World, r: World, bound: nat, except: nat)
  {
    forall i :: i in w.plays && i < bound && i != except ==> i in r.plays && r.plays[i] == w.plays[i]
  }

  lemma OnlyChildrenChangeTrans(w1: World, w2: World, w3: World)
    requires OnlyChildrenChange(w1, w2) && OnlyChildrenChange(w2, w3)
    ensures OnlyChildrenChange(w1, w3)
  {
  }

  lemma OlderUnchangedTrans(w1: World, w2: World, w3: World, b1: nat, e1: nat, b2: nat, e2: nat, bound: nat, except: nat)
    requires OlderUnchanged(w1, w2, b1, e1) && OlderUnchanged(w2, w3, b2, e2)
    requires bound <= b1 && bound <= b2
    requires except == e1 || bound <= e1
    requires except == e2 || bound <= e2
    ensures OlderUnchanged(w1, w3, bound, except)
  {
  }

  /** `remove()` only edits lists of children: of the object's parent, which
      loses the object, and of the object and its descendants, which are
      all younger. No other field of any object changes; in particular the
      cell `(tx, ty)` stays with the object and is not given back to the
      pool, and the `rotation` and `scale` handles are kept. */
  lemma {:induction false} RemoveNodeFrame(w: World, id: nat)
    requires Valid(w) && id in w.plays
    decreases w.next - id, 1
    ensures var r := RemoveNode(w, id);
            var q := w.plays[id].parent;
            && OnlyChildrenChange(w, r)
            && OlderUnchanged(w, r, id, q)
            && (q != id ==> r.plays[q].children == SpliceOne(w.plays[q].children, IndexOf(w.plays[q].children, id)))
  {
    var p := w.plays[id];
    var w1 := Strip(w, id);
    assert NodeOk(w, id);
    var w2 := RemoveChildren(w1, id, 0, |p.children|);
    RemoveChildrenFrame(w1, id, 0, |p.children|);
    assert w2.plays[id].parent == p.parent;
    assert RemoveNode(w, id) == Detached(w2, p.parent, id);
    DetachedFrame(w, w1, w2, id);
  }

  /** The last step of `remove()`, on top of what the loop changed. */
  lemma DetachedFrame(w: World, w1: World, w2: World, id: nat)
    requires id in w.plays && w.plays[id].parent in w.plays && w.plays[id].parent <= id
    requires w1.plays == w.plays
    requires OnlyChildrenChange(w1, w2) && OlderUnchanged(w1, w2, id, id)
    ensures var q := w.plays[id].parent;
            var r := Detached(w2, q, id);
            && OnlyChildrenChange(w, r)
            && OlderUnchanged(w, r, id, q)
            && (q != id ==> r.plays[q].children == SpliceOne(w.plays[q].children, IndexOf(w.plays[q].children, id)))
  {
    var q := w.plays[id].parent;
    var r := Detached(w2, q, id);
    assert OnlyChildrenChange(w2, r);
    OnlyChildrenChangeTrans(w1, w2, r);
    assert OlderUnchanged(w2, r, id, q);
    OlderUnchangedTrans(w1, w2, r, id, id, id, q, id, q);
  }

  lemma {:induction false} RemoveChildrenFrame(w: World, id: nat, k: nat, len: nat)
    requires Valid(w) && id in w.plays
    decreases w.next - id, 0, len - k
    ensures var r := RemoveChildren(w, id, k, len);
            && OnlyChildrenChange(w, r)
            && OlderUnchanged(w, r, id, id)
  {
    if k < len {
      var cs := w.plays[id].children;
      if k < |cs| {
        assert NodeOk(w, id);
        assert NodeOk(w, cs[k]);
        var w1 := RemoveNode(w, cs[k]);
        RemoveNodeFrame(w, cs[k]);
        RemoveChildrenFrame(w1, id, k + 1, len);
        var r := RemoveChildren(w1, id, k + 1, len);
        OnlyChildrenChangeTrans(w, w1, r);
        OlderUnchangedTrans(w, w1, r, cs[k], id, id, id, id, id);
      } else {
        RemoveChildrenFrame(w, id, k + 1, len);
      }
    }
  }

  // ------------------------------------------------ the children left behind

  /** The array a `forEach` walks after its first `k` visits, when each
      visit splices out the entry at the visited position, as long as that
      position still exists. */
  function Visited<T>(orig: seq<T>, k: nat): seq<T>
  {
    if k == 0 then orig
    else
      var a := Visited(orig, k - 1);
      if k - 1 < |a| then a[..k - 1] + a[k..] else a
  }

  /** The entries at odd positions. */
  function Odds<T>(s: seq<T>): (r: seq<T>)
    ensures |r| == |s| / 2
    ensures forall i :: 0 <= i < |r| ==> r[i] == s[2 * i + 1]
  {
    seq(|s| / 2, i requires 0 <= i < |s| / 2 => s[2 * i + 1])
  }

  /** The closed form of `Visited`: the odd entries of the part walked
      over, then the untouched rest. */
  function AfterVisits<T>(orig: seq<T>, k: nat): seq<T>
  {
    var m := if 2 * k < |orig| then 2 * k else |orig|;
    Odds(orig[..m]) + orig[m..]
  }

  /** Such a `forEach` over the whole array removes the entries at even
      positions and keeps the ones at odd positions, in order. */
  lemma VisitedAllIsOdds<T>(orig: seq<T>)
    ensures Visited(orig, |orig|) == Odds(orig)
  {
    VisitedClosedForm(orig, |orig|);
    assert orig[..|orig|] == orig;
  }

  lemma {:induction false} VisitedClosedForm<T>(orig: seq<T>, k: nat)
    ensures Visited(orig, k) == AfterVisits(orig, k)
  {
    if k == 0 {
      assert Odds(orig[..0]) == [];
    } else {
      VisitedClosedForm(orig, k - 1);
      ForEachStep(orig, k - 1);
    }
  }

  /** While `2 k` is inside the original array, position `k` holds original
      entry `2 k`, and splicing it out gives the array of the next visit;
      afterwards position `k` no longer exists and the array stays as it
      is. */
  lemma ForEachStep<T>(orig: seq<T>, k: nat)
    ensures 2 * k < |orig| ==>
              && k < |AfterVisits(orig, k)| && AfterVisits(orig, k)[k] == orig[2 * k]
              && AfterVisits(orig, k)[..k] + AfterVisits(orig, k)[k + 1..] == AfterVisits(orig, k + 1)
    ensures 2 * k >= |orig| ==> |AfterVisits(orig, k)| <= k && AfterVisits(orig, k + 1) == AfterVisits(orig, k)
  {
    var n := |orig|;
    var a := AfterVisits(orig, k);
    if 2 * k < n {
      var b := a[..k] + a[k + 1..];
      var c := AfterVisits(orig, k + 1);
      assert |b| == |c|;
      forall i | 0 <= i < |b|
        ensures b[i] == c[i]
      {
        if i < k {
          assert b[i] == orig[2 * i + 1];
        } else if i == k {
          assert b[i] == orig[2 * k + 1];
        } else {
          assert b[i] == orig[i + k + 1];
        }
      }
    }
  }

  /** The loop of `remove()` does to the object's list what `Visited` does:
      each child's own `remove()` splices it out of that list. */
  lemma {:induction false} RemoveChildrenVisits(w: World, id: nat, k: nat, orig: seq<nat>)
    requires Valid(w) && id in w.plays && k <= |orig|
    requires w.plays[id].children == Visited(orig, k)
    decreases |orig| - k
    ensures RemoveChildren(w, id, k, |orig|).plays[id].children == Visited(orig, |orig|)
  {
    if k < |orig| {
      var cs := w.plays[id].children;
      if k < |cs| {
        var w1 := VisitChild(w, id, k);
        assert RemoveChildren(w, id, k, |orig|) == RemoveChildren(w1, id, k + 1, |orig|);
        assert w1.plays[id].children == Visited(orig, k + 1);
        RemoveChildrenVisits(w1, id, k + 1, orig);
      } else {
        assert Visited(orig, k + 1) == cs;
        RemoveChildrenVisits(w, id, k + 1, orig);
      }
    }
  }

  /** A visit at a position that still exists removes the child there,
      which splices it out of the list being walked. */
  lemma VisitChild(w: World, id: nat, k: nat) returns (w1: World)
    requires Valid(w) && id in w.plays && k < |w.plays[id].children|
    ensures w.plays[id].children[k] in w.plays && w1 == RemoveNode(w, w.plays[id].children[k])
    ensures Valid(w1) && id in w1.plays
    ensures var cs := w.plays[id].children; w1.plays[id].children == cs[..k] + cs[k + 1..]
  {
    var cs := w.plays[id].children;
    var c := cs[k];
    assert NodeOk(w, id);
    assert c in w.plays && w.plays[c].parent == id && id < c;
    w1 := RemoveNode(w, c);
    IndexOfDistinct(cs, k);
    RemoveNodeFrame(w, c);
    SpliceAt(cs, k);
  }

  /** After `remove()`, the object still lists its children from odd
      positions, in order; a root, whose final splice is `splice(-1, 1)` on
      its own list, also drops the last of them. */
  lemma RemoveKeepsOddChildren(w: World, id: nat)
    requires Valid(w) && id in w.plays
    ensures var orig := w.plays[id].children;
            RemoveNode(w, id).plays[id].children ==
              if w.plays[id].parent == id then SpliceOne(Odds(orig), -1) else Odds(orig)
  {
    var p := w.plays[id];
    var orig := p.children;
    var w1 := Strip(w, id);
    assert NodeOk(w, id);
    var w2 := RemoveChildren(w1, id, 0, |orig|);
    assert w2.plays[id].children == Odds(orig) by {
      RemoveChildrenVisits(w1, id, 0, orig);
      VisitedAllIsOdds(orig);
    }
    assert w2.plays[id].parent == p.parent by {
      RemoveChildrenFrame(w1, id, 0, |orig|);
    }
    assert RemoveNode(w, id) == Detached(w2, p.parent, id);
    DetachedOwnList(w2, p.parent, id);
    if p.parent == id {
      SmallerNotInOdds(orig, id);
    }
  }

  /** The final splice changes the object's own list only when the object
      is its own parent. */
  lemma DetachedOwnList(w: World, parent: nat, id: nat)
    requires parent in w.plays && id in w.plays
    requires parent == id ==> id !in w.plays[id].children
    ensures Detached(w, parent, id).plays[id].children ==
              if parent == id then SpliceOne(w.plays[id].children, -1) else w.plays[id].children
  {
  }

  lemma SmallerNotInOdds(orig: seq<nat>, id: nat)
    requires forall c :: c in orig ==> id < c
    ensures id !in Odds(orig)
  {
    forall i | 0 <= i < |Odds(orig)|
      ensures Odds(orig)[i] != id
    {
      assert orig[2 * i + 1] in orig;
    }
  }

  // ------------------------------------------------------ parent and registry

  /** A listed object leaves its parent's list, the other entries keeping
      their order; an object that is not listed (one removed before)
      makes `indexOf` give -1, so its parent loses its last child instead. */
  lemma RemoveDetachesFromParent(w: World, id: nat, q: nat)
    requires Valid(w) && id in w.plays && q in w.plays
    requires w.plays[id].parent == q && q != id
    ensures var sib := w.plays[q].children;
            var after := RemoveNode(w, id).plays[q].children;
            && (id in sib ==> id !in after && exists i :: 0 <= i < |sib| && sib[i] == id && after == sib[..i] + sib[i + 1..])
            && (id !in sib && sib != [] ==> after == sib[..|sib| - 1])
  {
    var sib := w.plays[q].children;
    RemoveNodeFrame(w, id);
    assert NodeOk(w, q);
    if id in sib {
      SpliceOutListed(sib, id);
    } else if sib != [] {
      SpliceOneEffect(sib, -1);
    }
  }

  /** In a list without repeats, splicing at `indexOf(x)` takes out the one
      occurrence of `x`. */
  lemma SpliceOutListed<T>(sib: seq<T>, x: T)
    requires Distinct(sib) && x in sib
    ensures var after := SpliceOne(sib, IndexOf(sib, x));
            && x !in after
            && exists i :: 0 <= i < |sib| && sib[i] == x && after == sib[..i] + sib[i + 1..]
  {
    var i := IndexOf(sib, x);
    var after := sib[..i] + sib[i + 1..];
    assert SpliceOne(sib, i) == after;
    forall j | 0 <= j < |after|
      ensures after[j] != x
    {
      assert after[j] == sib[if j < i then j else j + 1];
    }
  }

  /** Removing an object without children takes exactly two entries out of
      the registry: the one at its transform handle, then the one at its
      life handle in what is left. Its rotation and scale entries stay. */
  lemma RemoveLeafDeregistersTwo(w: World, id: nat)
    requires Valid(w) && id in w.plays && w.plays[id].children == []
    ensures var p := w.plays[id];
            RemoveNode(w, id).lerpables == SpliceOne(SpliceOne(w.lerpables, p.transform), p.life)
  {
    var w1 := Strip(w, id);
    assert RemoveChildren(w1, id, 0, 0) == w1;
    assert NodeOk(w, id);
  }

  /** `remove()` only takes entries out of the registry; it never adds or
      duplicates one. */
  lemma {:induction false} RemoveNeverRegisters(w: World, id: nat)
    requires Valid(w) && id in w.plays
    decreases w.next - id, 1
    ensures multiset(RemoveNode(w, id).lerpables) <= multiset(w.lerpables)
  {
    var p := w.plays[id];
    var w1 := Strip(w, id);
    SpliceOneShrinks(w.lerpables, p.transform);
    SpliceOneShrinks(SpliceOne(w.lerpables, p.transform), p.life);
    assert NodeOk(w, id);
    RemoveChildrenNeverRegister(w1, id, 0, |p.children|);
    var w2 := RemoveChildren(w1, id, 0, |p.children|);
    assert NodeOk(w2, id);
    assert RemoveNode(w, id).lerpables == w2.lerpables;
  }

  lemma {:induction false} RemoveChildrenNeverRegister(w: World, id: nat, k: nat, len: nat)
    requires Valid(w) && id in w.plays
    decreases w.next - id, 0, len - k
    ensures multiset(RemoveChildren(w, id, k, len).lerpables) <= multiset(w.lerpables)
  {
    if k < len {
      var cs := w.plays[id].children;
      if k < |cs| {
        assert NodeOk(w, id);
        assert NodeOk(w, cs[k]);
        var w' := RemoveNode(w, cs[k]);
        RemoveNeverRegisters(w, cs[k]);
        RemoveChildrenNeverRegister(w', id, k + 1, len);
        var r := RemoveChildren(w', id, k + 1, len);
        assert RemoveChildren(w, id, k, len) == r;
        MultisetLeTrans(multiset(r.lerpables), multiset(w'.lerpables), multiset(w.lerpables));
      } else {
        RemoveChildrenNeverRegister(w, id, k + 1, len);
      }
    }
  }

  lemma MultisetLeTrans<T>(a: multiset<T>, b: multiset<T>, c: multiset<T>)
    requires a <= b && b <= c
    ensures a <= c
  {
  }
}
