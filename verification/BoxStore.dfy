/** The store of boxes: of those with the same signature only the maximal ones are kept. */
module BoxStore {

  /** A box, and the signature under which it is stored. */
  datatype Box = Box(id: nat, signature: nat)

  /** Whether a box is below another, as the simplified comparison says. */
  type Order = (Box, Box) -> bool

  ghost predicate Transitive(leq: Order) {
    forall a, b, c :: leq(a, b) && leq(b, c) ==> leq(a, c)
  }

  /** No member is below another one. */
  ghost predicate Incomparable(leq: Order, boxes: seq<Box>) {
    forall i, j :: 0 <= i < |boxes| && 0 <= j < |boxes| && i != j ==> !leq(boxes[i], boxes[j])
  }

  ghost predicate BelowSome(leq: Order, box: Box, boxes: seq<Box>) {
    exists i :: 0 <= i < |boxes| && leq(box, boxes[i])
  }

  type Boxes = map<nat, seq<Box>>

  function ListOf(boxes: Boxes, signature: nat): seq<Box> {
    if signature in boxes then boxes[signature] else []
  }

  /** Whether some stored box with the signature of `box` is above it. */
  ghost predicate Covered(leq: Order, boxes: Boxes, box: Box) {
    BelowSome(leq, box, ListOf(boxes, box.signature))
  }

  ghost predicate Antichains(leq: Order, boxes: Boxes) {
    forall s :: s in boxes ==> Incomparable(leq, boxes[s])
  }

  /** Every place at which a box is stored. */
  ghost function Places(boxes: Boxes): set<(nat, nat)> {
    set s, i | s in boxes && 0 <= i < |boxes[s]| :: (s, i)
  }

  /** The members of a list that are below `box`, or those that are not, in their order. */
  function Part(leq: Order, box: Box, boxes: seq<Box>, below: bool): (r: seq<Box>)
    ensures |r| <= |boxes|
  {
    if boxes == [] then []
    else
      var b := boxes[|boxes| - 1];
      Part(leq, box, boxes[..|boxes| - 1], below) + if leq(b, box) == below then [b] else []
  }

  /** What the store becomes with a box that nothing stored is above. */
  function Added(leq: Order, boxes: Boxes, box: Box): Boxes {
    boxes[box.signature := Part(leq, box, ListOf(boxes, box.signature), false) + [box]]
  }

  // ---------- parts of a list ----------

  lemma PartMore(leq: Order, box: Box, boxes: seq<Box>, k: nat, below: bool)
    requires k < |boxes|
    ensures Part(leq, box, boxes[..k + 1], below) ==
            Part(leq, box, boxes[..k], below) + if leq(boxes[k], box) == below then [boxes[k]] else []
  {
    assert boxes[..k + 1][..k] == boxes[..k];
  }

  lemma {:induction false} PartMembers(leq: Order, box: Box, boxes: seq<Box>, below: bool, i: nat)
    requires i < |Part(leq, box, boxes, below)|
    ensures leq(Part(leq, box, boxes, below)[i], box) == below
    ensures exists j :: 0 <= j < |boxes| && boxes[j] == Part(leq, box, boxes, below)[i]
    decreases |boxes|
  {
    var n := |boxes| - 1;
    var before := Part(leq, box, boxes[..n], below);
    if i < |before| {
      PartMembers(leq, box, boxes[..n], below, i);
      var j :| 0 <= j < n && boxes[..n][j] == before[i];
      assert boxes[j] == before[i];
    }
  }

  lemma {:induction false} PartHas(leq: Order, box: Box, boxes: seq<Box>, below: bool, j: nat)
    requires j < |boxes| && leq(boxes[j], box) == below
    ensures exists i :: 0 <= i < |Part(leq, box, boxes, below)| && Part(leq, box, boxes, below)[i] == boxes[j]
    decreases |boxes|
  {
    var n := |boxes| - 1;
    if j < n {
      PartHas(leq, box, boxes[..n], below, j);
      var i :| 0 <= i < |Part(leq, box, boxes[..n], below)| && Part(leq, box, boxes[..n], below)[i] == boxes[..n][j];
      assert Part(leq, box, boxes, below)[i] == boxes[j];
    } else {
      var r := Part(leq, box, boxes, below);
      assert r[|r| - 1] == boxes[j];
    }
  }

  lemma {:induction false} PartIncomparable(leq: Order, box: Box, boxes: seq<Box>, below: bool)
    requires Incomparable(leq, boxes)
    ensures Incomparable(leq, Part(leq, box, boxes, below))
    decreases |boxes|
  {
    if boxes != [] {
      var n := |boxes| - 1;
      PartIncomparable(leq, box, boxes[..n], below);
      var before := Part(leq, box, boxes[..n], below);
      forall i | 0 <= i < |before|
        ensures !leq(before[i], boxes[n]) && !leq(boxes[n], before[i])
      {
        PartMembers(leq, box, boxes[..n], below, i);
        var j :| 0 <= j < n && boxes[..n][j] == before[i];
        assert boxes[j] == before[i];
      }
    }
  }

  lemma {:induction false} PartSizes(leq: Order, box: Box, boxes: seq<Box>)
    ensures |Part(leq, box, boxes, false)| + |Part(leq, box, boxes, true)| == |boxes|
    decreases |boxes|
  {
    if boxes != [] {
      PartSizes(leq, box, boxes[..|boxes| - 1]);
    }
  }

  // ---------- what adding keeps ----------

  /** Lists stay antichains. */
  lemma AddedAntichains(leq: Order, boxes: Boxes, box: Box)
    requires Antichains(leq, boxes) && !Covered(leq, boxes, box)
    ensures Antichains(leq, Added(leq, boxes, box))
  {
    var list := ListOf(boxes, box.signature);
    var kept := Part(leq, box, list, false);
    PartIncomparable(leq, box, list, false);
    forall i | 0 <= i < |kept|
      ensures !leq(kept[i], box) && !leq(box, kept[i])
    {
      PartMembers(leq, box, list, false, i);
    }
    var more := kept + [box];
    assert Incomparable(leq, more);
  }

  /** What was covered stays covered, and so is the new box if it is below itself. */
  lemma AddedCovers(leq: Order, boxes: Boxes, box: Box, other: Box)
    requires Transitive(leq)
    ensures Covered(leq, boxes, other) ==> Covered(leq, Added(leq, boxes, box), other)
    ensures leq(box, box) ==> Covered(leq, Added(leq, boxes, box), box)
  {
    var list := ListOf(boxes, box.signature);
    var kept := Part(leq, box, list, false);
    var more := kept + [box];
    assert more[|kept|] == box;
    if Covered(leq, boxes, other) && other.signature == box.signature {
      var j :| 0 <= j < |list| && leq(other, list[j]);
      if !leq(list[j], box) {
        PartHas(leq, box, list, false, j);
        var i :| 0 <= i < |kept| && kept[i] == list[j];
        assert more[i] == list[j];
      }
    }
  }

  ghost function PlacesOf(s: nat, n: nat): set<(nat, nat)> {
    set i | 0 <= i < n :: (s, i)
  }

  ghost function PlacesElsewhere(boxes: Boxes, s: nat): set<(nat, nat)> {
    set t, i | t in boxes && t != s && 0 <= i < |boxes[t]| :: (t, i)
  }

  lemma {:induction false} PlacesOfList(s: nat, n: nat)
    ensures |PlacesOf(s, n)| == n
  {
    if n > 0 {
      PlacesOfList(s, n - 1);
      assert PlacesOf(s, n) == PlacesOf(s, n - 1) + {(s, n - 1)};
    }
  }

  lemma PlacesSplit(boxes: Boxes, s: nat)
    ensures |Places(boxes)| == |PlacesElsewhere(boxes, s)| + |ListOf(boxes, s)|
  {
    PlacesOfList(s, |ListOf(boxes, s)|);
    assert Places(boxes) == PlacesElsewhere(boxes, s) + PlacesOf(s, |ListOf(boxes, s)|);
    assert PlacesElsewhere(boxes, s) !! PlacesOf(s, |ListOf(boxes, s)|);
  }

  /** Another list under `s` changes the number of places by the difference of lengths. */
  lemma PlacesChange(boxes: Boxes, s: nat, list: seq<Box>)
    ensures |Places(boxes[s := list])| + |ListOf(boxes, s)| == |Places(boxes)| + |list|
  {
    PlacesSplit(boxes, s);
    PlacesSplit(boxes[s := list], s);
    assert PlacesElsewhere(boxes[s := list], s) == PlacesElsewhere(boxes, s);
  }

  // ---------- the walk over a list ----------

  /** Of `list0` the first `k` were looked at, and those not below `box` are the first `i` of `list`. */
  ghost predicate Walking(leq: Order, box: Box, list0: seq<Box>, k: nat, list: seq<Box>, i: nat, gone: seq<Box>,
                          modified: bool)
  {
    && i <= |list| && k <= |list0|
    && list[..i] == Part(leq, box, list0[..k], false) && list[i..] == list0[k..]
    && gone == Part(leq, box, list0[..k], true)
    && (modified <==> exists j :: 0 <= j < k && leq(list0[j], box))
    && (!modified ==> list == list0 && i == k && gone == [])
    && forall j :: 0 <= j < k ==> !leq(box, list0[j])
  }

  lemma WalkNext(leq: Order, box: Box, list0: seq<Box>, k: nat, list: seq<Box>, i: nat, gone: seq<Box>, modified: bool)
    requires Walking(leq, box, list0, k, list, i, gone, modified) && i < |list|
    requires Transitive(leq) && Incomparable(leq, list0)
    ensures k < |list0| && list[i] == list0[k]
    ensures modified ==> !leq(box, list[i])
    ensures !modified ==> list == list0 && gone == []
    ensures leq(list[i], box) && !leq(box, list[i]) ==>
      Walking(leq, box, list0, k + 1, list[..i] + list[i + 1..], i, gone + [list[i]], true)
    ensures !leq(list[i], box) && !leq(box, list[i]) ==> Walking(leq, box, list0, k + 1, list, i + 1, gone, modified)
  {
    hide Part, Transitive, Incomparable;
    SameRest(list0, k, list, i);
    PartMore(leq, box, list0, k, true);
    PartMore(leq, box, list0, k, false);
    if modified {
      var j :| 0 <= j < k && leq(list0[j], box);
      NothingAbove(leq, box, list0, j, k);
    }
  }

  lemma SameRest(list0: seq<Box>, k: nat, list: seq<Box>, i: nat)
    requires k <= |list0| && i < |list| && list[i..] == list0[k..]
    ensures k < |list0| && list[i] == list0[k] && list[i + 1..] == list0[k + 1..]
    ensures list[..i + 1] == list[..i] + [list[i]]
    ensures var less := list[..i] + list[i + 1..]; less[..i] == list[..i] && less[i..] == list[i + 1..]
  {
    assert list[i] == list[i..][0] == list0[k..][0] == list0[k];
    assert list[i + 1..] == list[i..][1..] == list0[k..][1..] == list0[k + 1..];
  }

  /** What is above something that is above one of an antichain is no other of it. */
  lemma NothingAbove(leq: Order, box: Box, list: seq<Box>, j: nat, k: nat)
    requires Transitive(leq) && Incomparable(leq, list) && j < k < |list| && leq(list[j], box)
    ensures !leq(box, list[k])
  {
    assert !leq(list[j], list[k]);
  }

  lemma WalkStart(leq: Order, box: Box, list: seq<Box>)
    ensures Walking(leq, box, list, 0, list, 0, [], false)
  {
    assert list[..0] == [];
  }

  /** Nothing in the list is above the box: it is added. */
  lemma WalkEnd(leq: Order, boxes: Boxes, box: Box, k: nat, list: seq<Box>, i: nat, gone: seq<Box>, modified: bool)
    requires Walking(leq, box, ListOf(boxes, box.signature), k, list, i, gone, modified) && i == |list|
    requires Antichains(leq, boxes)
    ensures !Covered(leq, boxes, box)
    ensures boxes[box.signature := list + [box]] == Added(leq, boxes, box)
    ensures gone == Part(leq, box, ListOf(boxes, box.signature), true)
    ensures Antichains(leq, Added(leq, boxes, box))
    ensures |Places(Added(leq, boxes, box))| + |gone| == |Places(boxes)| + 1
  {
    var list0 := ListOf(boxes, box.signature);
    assert |list[i..]| == 0 && |list0[k..]| == 0;
    assert list0[..k] == list0 && list[..i] == list;
    AddedAntichains(leq, boxes, box);
    PlacesChange(boxes, box.signature, list + [box]);
    PartSizes(leq, box, list0);
  }

  class BoxAntichain {
    const leq: Order
    var boxes: Boxes
    var obsolete: seq<Box>
    var modified: bool
    var count: nat

    constructor (leq: Order)
      ensures this.leq == leq && boxes == map[] && Valid() && Live() == 0
    {
      this.leq, boxes, obsolete, modified, count := leq, map[], [], false, 0;
    }

    ghost function Live(): nat
      reads this
    {
      |Places(boxes)|
    }

    /** Antichains, and the counter is ahead of the stored boxes by the obsolete ones. */
    ghost predicate Valid()
      reads this
    {
      Antichains(leq, boxes) && count == Live() + |obsolete|
    }

    function Size(): int
      reads this
    {
      count - |obsolete|
    }

    /** The first stored box above the given one. */
    method Lookup(box: Box) returns (found: bool, r: Box)
      ensures found <==> Covered(leq, boxes, box)
      ensures found ==> r in ListOf(boxes, box.signature) && leq(box, r)
    {
      found, r := false, box;
      if box.signature in boxes {
        var list := boxes[box.signature];
        for i := 0 to |list|
          invariant forall j :: 0 <= j < i ==> !leq(box, list[j])
        {
          if leq(box, list[i]) {
            return true, list[i];
          }
        }
      }
    }

    /** A stored box above the given one, which is stored itself if there is none; what is below it becomes obsolete. */
    method Get(box: Box) returns (r: Box)
      requires Valid() && Transitive(leq)
      modifies this
      ensures Valid() && Size() == Live() && modified == !old(Covered(leq, boxes, box))
      ensures r in ListOf(boxes, box.signature) && (leq(box, r) || r == box)
      ensures !modified ==> leq(box, r) && boxes == old(boxes) && obsolete == old(obsolete) && Size() == old(Size())
      ensures modified ==> r == box && boxes == old(Added(leq, boxes, box))
      ensures modified ==> obsolete == old(obsolete) + Part(leq, box, old(ListOf(boxes, box.signature)), true)
    {
      hide Part, Places, Walking, Added, Transitive;
      ghost var before, list0 := boxes, ListOf(boxes, box.signature);
      modified := false;
      if box.signature !in boxes {
        boxes := boxes[box.signature := []];
      }
      var i := 0;
      ghost var k, gone := 0, [];
      WalkStart(leq, box, list0);
      while i < |boxes[box.signature]|
        invariant box.signature in boxes && i <= |boxes[box.signature]|
        invariant count == old(count) && obsolete == old(obsolete) + gone
        invariant boxes == before[box.signature := boxes[box.signature]]
        invariant Walking(leq, box, list0, k, boxes[box.signature], i, gone, modified)
        decreases |list0| - k
      {
        var list := boxes[box.signature];
        WalkNext(leq, box, list0, k, list, i, gone, modified);
        if !modified && leq(box, list[i]) {
          assert boxes == before;
          return list[i];
        }
        assert !leq(box, list[i]);  // what the source asserts
        if leq(list[i], box) {
          obsolete := obsolete + [list[i]];
          boxes := boxes[box.signature := list[..i] + list[i + 1..]];
          modified := true;
          gone := gone + [list[i]];
        } else {
          i := i + 1;
        }
        k := k + 1;
      }
      WalkEnd(leq, before, box, k, boxes[box.signature], i, gone, modified);
      var list := boxes[box.signature] + [box];
      assert list[|list| - 1] == box;
      boxes := boxes[box.signature := list];
      assert boxes == before[box.signature := list];
      modified := true;
      count := count + 1;
      r := box;
    }

    /** Forgets the stored boxes. The counter is left as it is, so the reported size is right if and
        only if there were none. */
    method Clear()
      modifies this`boxes
      ensures boxes == map[] && Live() == 0 && Size() == old(Size())
      ensures old(Valid()) ==> (Size() == Live() <==> old(forall s :: s in boxes ==> boxes[s] == []))
    {
      NothingStored(boxes);
      boxes := map[];
    }
  }

  lemma NothingStored(boxes: Boxes)
    ensures |Places(boxes)| == 0 <==> forall s :: s in boxes ==> boxes[s] == []
  {
    if s :| s in boxes && boxes[s] != [] {
      assert (s, 0) in Places(boxes);
    } else {
      assert Places(boxes) == {};
    }
  }
}
