/** Reference counts.  Handles on objects are held by callers and by the slots of object lists. */
module RefCount {
  import opened Bytes

  type id = nat

  /** `owned` is the flag that says whether the object is to be freed with its last handle; `heap` is whether its
      memory can be.  An object laid out in a caller's buffer is not on the heap. */
  datatype Cell = Cell(count: nat, owned: bool, heap: bool, data: seq<byte>)

  type slots = seq<Option<id>>

  // ---- counting handles ----

  function Uses(s: slots, i: id): nat {
    if s == [] then 0 else (if s[0] == Some(i) then 1 else 0) + Uses(s[1..], i)
  }

  function UsesAll(lists: seq<slots>, i: id): nat {
    if lists == [] then 0 else Uses(lists[0], i) + UsesAll(lists[1..], i)
  }

  lemma {:induction false} UsesSet(s: slots, k: nat, v: Option<id>, i: id)
    requires k < |s|
    ensures Uses(s[k := v], i) + (if s[k] == Some(i) then 1 else 0) == Uses(s, i) + if v == Some(i) then 1 else 0
  {
    if k == 0 {
      assert s[0 := v][1..] == s[1..];
    } else {
      assert s[k := v][1..] == s[1..][k - 1 := v];
      UsesSet(s[1..], k - 1, v, i);
    }
  }

  lemma {:induction false} UsesJoin(a: slots, b: slots, i: id)
    ensures Uses(a + b, i) == Uses(a, i) + Uses(b, i)
  {
    if a == [] {
      assert [] + b == b;
    } else {
      assert (a + b)[1..] == a[1..] + b;
      UsesJoin(a[1..], b, i);
    }
  }

  lemma {:induction false} UsesAllSet(lists: seq<slots>, k: nat, s: slots, i: id)
    requires k < |lists|
    ensures UsesAll(lists[k := s], i) + Uses(lists[k], i) == UsesAll(lists, i) + Uses(s, i)
  {
    if k == 0 {
      assert lists[0 := s][1..] == lists[1..];
    } else {
      assert lists[k := s][1..] == lists[1..][k - 1 := s];
      UsesAllSet(lists[1..], k - 1, s, i);
    }
  }

  lemma {:induction false} UsesAllJoin(a: seq<slots>, s: slots, i: id)
    ensures UsesAll(a + [s], i) == UsesAll(a, i) + Uses(s, i)
  {
    if a == [] {
      assert [] + [s] == [s] && [s][1..] == [];
    } else {
      assert (a + [s])[1..] == a[1..] + [s];
      UsesAllJoin(a[1..], s, i);
    }
  }

  /** The handles on an object. */
  function Handles(held: multiset<id>, lists: seq<slots>, i: id): nat {
    held[i] + UsesAll(lists, i)
  }

  /** The count of an object is the number of handles on it; an object in a caller's buffer counts one at least. */
  predicate Counted(c: Cell, handles: nat) {
    && c.owned == c.heap
    && if c.heap then c.count == handles >= 1 else c.count == if handles >= 1 then handles else 1
  }

  ghost predicate CountedAt(cells: map<id, Cell>, held: multiset<id>, lists: seq<slots>, i: id) {
    if i in cells then Counted(cells[i], Handles(held, lists, i)) else Handles(held, lists, i) == 0
  }

  ghost predicate Balanced(cells: map<id, Cell>, held: multiset<id>, lists: seq<slots>) {
    forall i :: CountedAt(cells, held, lists, i)
  }

  /** An object that lost its last handle is gone, and every other object made is there. */
  ghost predicate FreedOnce(cells: map<id, Cell>, freed: seq<id>, next: id) {
    && (forall i <- cells :: i < next)
    && (forall i: id :: multiset(freed)[i] == if i < next && i !in cells then 1 else 0)
  }

  /** A handle that changes hands. */
  lemma SameHandles(cells: map<id, Cell>, held: multiset<id>, lists: seq<slots>,
                    held': multiset<id>, lists': seq<slots>)
    requires Balanced(cells, held, lists)
    requires forall i :: Handles(held', lists', i) == Handles(held, lists, i)
    ensures Balanced(cells, held', lists')
  {
    forall i ensures CountedAt(cells, held', lists', i) {
      assert CountedAt(cells, held, lists, i);
      assert Handles(held', lists', i) == Handles(held, lists, i);
    }
  }

  /** What one handle less means for the object. */
  lemma OneLess(cells: map<id, Cell>, held: multiset<id>, lists: seq<slots>, i: id)
    requires Balanced(cells, held, lists) && i in held
    ensures i in cells && cells[i].owned == cells[i].heap
    ensures var c, h := cells[i], held - multiset{i};
            && (c.count > 1 <==> Handles(h, lists, i) >= 1)
            && Balanced(if c.count > 1 then cells[i := c.(count := c.count - 1)]
                        else if c.owned then cells - {i}
                        else cells, h, lists)
  {
    assert CountedAt(cells, held, lists, i);
    var c, h := cells[i], held - multiset{i};
    var cells' := if c.count > 1 then cells[i := c.(count := c.count - 1)] else if c.owned then cells - {i} else cells;
    forall j ensures CountedAt(cells', h, lists, j) {
      assert CountedAt(cells, held, lists, j);
    }
  }

  lemma NextFreed(cells: map<id, Cell>, freed: seq<id>, next: id, i: id)
    requires FreedOnce(cells, freed, next) && i in cells
    ensures FreedOnce(cells - {i}, freed + [i], next)
  {
  }

  lemma SameFreed(cells: map<id, Cell>, freed: seq<id>, next: id, i: id, c: Cell)
    requires FreedOnce(cells, freed, next) && i in cells
    ensures FreedOnce(cells[i := c], freed, next)
  {
  }

  lemma {:induction false} NoUses(s: slots, i: id)
    requires forall k | 0 <= k < |s| :: s[k].None?
    ensures Uses(s, i) == 0
  {
    if s != [] {
      NoUses(s[1..], i);
    }
  }

  lemma {:induction false} UsesAtLeast(lists: seq<slots>, l: nat, k: nat)
    requires l < |lists| && k < |lists[l]| && lists[l][k].Some?
    ensures UsesAll(lists, lists[l][k].value) >= 1
  {
    var i := lists[l][k].value;
    var s := lists[l][k := None];
    UsesSet(lists[l], k, None, i);
    UsesAllSet(lists, l, s, i);
  }

  /** When no handle is left, every object on the heap was freed, and each of them once. */
  lemma NothingLeaks(cells: map<id, Cell>, held: multiset<id>, lists: seq<slots>, freed: seq<id>, next: id, i: id)
    requires Balanced(cells, held, lists) && FreedOnce(cells, freed, next)
    requires i < next && Handles(held, lists, i) == 0
    ensures if i in cells then !cells[i].heap && multiset(freed)[i] == 0 else multiset(freed)[i] == 1
  {
    assert CountedAt(cells, held, lists, i);
  }

  /** One handle less: the count goes down, and with the last handle an object goes that is marked as owned. */
  function Deleted(cells: map<id, Cell>, i: id): map<id, Cell>
    requires i in cells
  {
    var c := cells[i];
    if c.count > 1 then cells[i := c.(count := c.count - 1)] else if c.owned then cells - {i} else cells
  }

  /** Two objects change content and mark. */
  function Swapped(cells: map<id, Cell>, a: id, b: id): map<id, Cell>
    requires a in cells && b in cells
  {
    cells[a := cells[a].(data := cells[b].data, owned := cells[b].owned)]
         [b := cells[b].(data := cells[a].data, owned := cells[a].owned)]
  }

  /** After a swap of an object in a caller's buffer with one on the heap, giving up the last handle of the first frees
      memory that is not on the heap, and giving up that of the second does not free it. */
  lemma MixedSwap(cells: map<id, Cell>, held: multiset<id>, lists: seq<slots>, a: id, b: id)
    requires Balanced(cells, held, lists) && a in cells && b in cells
    requires !cells[a].heap && cells[b].heap && cells[a].count == 1 && cells[b].count == 1
    ensures a !in Deleted(Swapped(cells, a, b), a) && b in Deleted(Swapped(cells, a, b), b)
  {
    assert CountedAt(cells, held, lists, a) && CountedAt(cells, held, lists, b);
  }

  class Store {
    var cells: map<id, Cell>
    var lists: seq<slots>
    /** The handles that callers hold. */
    ghost var held: multiset<id>
    /** The objects freed so far, in order. */
    ghost var freed: seq<id>
    var next: id

    /** Counts are right, and each object ever made is live or was freed once. */
    ghost predicate Valid()
      reads this
    {
      Balanced(cells, held, lists) && FreedOnce(cells, freed, next)
    }

    constructor ()
      ensures Valid() && cells == map[] && lists == [] && held == multiset{} && freed == []
    {
      cells, lists, held, freed, next := map[], [], multiset{}, [], 0;
    }

    method Create(heap: bool, data: seq<byte>) returns (i: id)
      requires Valid()
      modifies this
      ensures Valid()
      ensures i !in old(cells) && cells == old(cells)[i := Cell(1, heap, heap, data)]
      ensures held == old(held) + multiset{i} && lists == old(lists) && freed == old(freed)
    {
      i := next;
      assert CountedAt(cells, held, lists, i);
      cells := cells[i := Cell(1, heap, heap, data)];
      held := held + multiset{i};
      next := next + 1;
      forall j ensures CountedAt(cells, held, lists, j) {
        assert CountedAt(old(cells), old(held), lists, j);
      }
    }

    /** One more handle for the caller. */
    method Reference(i: id)
      requires Valid() && i in cells && Handles(held, lists, i) >= 1
      modifies this
      ensures Valid()
      ensures cells == old(cells)[i := old(cells)[i].(count := old(cells)[i].count + 1)]
      ensures held == old(held) + multiset{i} && lists == old(lists) && freed == old(freed)
    {
      cells := cells[i := cells[i].(count := cells[i].count + 1)];
      held := held + multiset{i};
      forall j ensures CountedAt(cells, held, lists, j) {
        assert CountedAt(old(cells), old(held), lists, j);
      }
    }

    /** A caller gives a handle up.  The object goes with the last one, if it is on the heap. */
    method Delete(i: id)
      requires Valid() && i in held
      modifies this
      ensures Valid()
      ensures held == old(held) - multiset{i} && lists == old(lists)
      ensures i in old(cells)
      ensures i in cells <==> !old(cells)[i].heap || Handles(held, lists, i) >= 1
      ensures freed == if i in cells then old(freed) else old(freed) + [i]
      ensures cells - {i} == old(cells) - {i}
      ensures i in cells ==> cells[i].heap == old(cells)[i].heap
      ensures cells == Deleted(old(cells), i)
    {
      hide FreedOnce, Balanced, Handles;
      OneLess(cells, held, lists, i);
      held := held - multiset{i};
      if cells[i].count > 1 {
        SameFreed(cells, freed, next, i, cells[i].(count := cells[i].count - 1));
        cells := cells[i := cells[i].(count := cells[i].count - 1)];
      } else if cells[i].owned {
        NextFreed(cells, freed, next, i);
        cells := cells - {i};
        freed := freed + [i];
      }
    }

    // ---- the slots of lists ----

    method Put(l: nat, k: nat, i: id)
      requires Valid() && l < |lists| && k < |lists[l]| && lists[l][k].None? && i in held
      modifies this`held, this`lists
      ensures Valid()
      ensures held == old(held) - multiset{i} && lists == old(lists)[l := old(lists)[l][k := Some(i)]]
    {
      hide Balanced, FreedOnce;
      ghost var h, ls := held, lists;
      held := held - multiset{i};
      lists := lists[l := lists[l][k := Some(i)]];
      forall j ensures Handles(held, lists, j) == Handles(h, ls, j) {
        UsesSet(ls[l], k, Some(i), j);
        UsesAllSet(ls, l, lists[l], j);
      }
      SameHandles(cells, h, ls, held, lists);
    }

    method Take(l: nat, k: nat) returns (i: id)
      requires Valid() && l < |lists| && k < |lists[l]| && lists[l][k].Some?
      modifies this`held, this`lists
      ensures Valid() && i == old(lists)[l][k].value
      ensures held == old(held) + multiset{i} && lists == old(lists)[l := old(lists)[l][k := None]]
    {
      hide Balanced, FreedOnce;
      ghost var h, ls := held, lists;
      i := lists[l][k].value;
      held := held + multiset{i};
      lists := lists[l := lists[l][k := None]];
      forall j ensures Handles(held, lists, j) == Handles(h, ls, j) {
        UsesSet(ls[l], k, None, j);
        UsesAllSet(ls, l, lists[l], j);
      }
      SameHandles(cells, h, ls, held, lists);
    }

    /** Empty slots at the end of a list. */
    method Grow(l: nat, n: nat)
      requires Valid() && l < |lists|
      modifies this`lists
      ensures Valid() && lists == old(lists)[l := old(lists)[l] + seq(n, _ => None)]
    {
      hide Balanced, FreedOnce;
      ghost var ls := lists;
      lists := lists[l := lists[l] + seq(n, _ => None)];
      forall j ensures Handles(held, lists, j) == Handles(held, ls, j) {
        NoUses(lists[l][|ls[l]|..], j);
        UsesJoin(ls[l], lists[l][|ls[l]|..], j);
        assert lists[l] == ls[l] + lists[l][|ls[l]|..];
        UsesAllSet(ls, l, lists[l], j);
      }
      SameHandles(cells, held, ls, held, lists);
    }

    method ListCreate() returns (l: nat)
      requires Valid()
      modifies this`lists
      ensures Valid() && l == |old(lists)| && lists == old(lists) + [[]]
    {
      hide Balanced, FreedOnce;
      ghost var ls := lists;
      l := |lists|;
      lists := lists + [[]];
      forall j ensures Handles(held, lists, j) == Handles(held, ls, j) {
        UsesAllJoin(ls, [], j);
      }
      SameHandles(cells, held, ls, held, lists);
    }

    /** The list takes over the caller's handle, or gets an empty slot for no object. */
    method Append(l: nat, o: Option<id>)
      requires Valid() && l < |lists| && (o.Some? ==> o.value in held)
      modifies this`held, this`lists
      ensures Valid()
      ensures held == old(held) - Bag([o]) && lists == old(lists)[l := old(lists)[l] + [o]]
    {
      hide Balanced, FreedOnce;
      ghost var s := lists[l];
      OneBag(o);
      Grow(l, 1);
      assert lists[l] == s + [None];
      if o.Some? {
        Put(l, |lists[l]| - 1, o.value);
        assert lists[l] == s + [o];
      }
    }

    /** A handle of its own for the list: one more on the object, or one on a copy of it. */
    method AppendCopy(l: nat, o: Option<id>, clone: bool) returns (ok: bool)
      requires Valid() && l < |lists|
      requires o.Some? ==> o.value in cells && Handles(held, lists, o.value) >= 1
      modifies this
      ensures Valid() && held == old(held) && freed == old(freed)
      ensures ok <==> o.Some?
      ensures !ok ==> lists == old(lists) && cells == old(cells)
      ensures ok && !clone ==> lists == old(lists)[l := old(lists)[l] + [o]]
      ensures ok && clone ==>
                exists j :: j !in old(cells) && lists == old(lists)[l := old(lists)[l] + [Some(j)]]
                            && cells == old(cells)[j := Cell(1, true, true, old(cells)[o.value].data)]
    {
      hide Balanced, FreedOnce, Handles;
      if o.None? { return false; }
      if clone {
        var j := Create(true, cells[o.value].data);
        OneBag(Some(j));
        Append(l, Some(j));
      } else {
        OneBag(o);
        Reference(o.value);
        Append(l, o);
      }
      return true;
    }

    /** A slot of `dest` gets a handle of its own on what is in `v`. */
    method Share(dest: nat, k: nat, v: Option<id>)
      requires Valid() && dest < |lists| && k < |lists[dest]| && lists[dest][k].None?
      requires v.Some? ==> v.value in cells && Handles(held, lists, v.value) >= 1
      modifies this
      ensures Valid() && held == old(held) && freed == old(freed) && cells.Keys == old(cells).Keys
      ensures lists == old(lists)[dest := old(lists)[dest][k := v]]
    {
      hide Balanced, FreedOnce, Handles;
      if v.Some? {
        Reference(v.value);
        Put(dest, k, v.value);
      } else {
        assert lists[dest][k := v] == lists[dest];
        assert lists[dest := lists[dest]] == lists;
      }
    }

    /** The part of `src` from `start` on, at most `number` slots, is added to `dest`; the lists may be the same. */
    method MergeSection(dest: nat, src: nat, start: nat, number: nat) returns (ok: bool)
      requires Valid() && dest < |lists| && src < |lists|
      modifies this
      ensures Valid() && held == old(held) && freed == old(freed) && cells.Keys == old(cells).Keys
      ensures ok <==> start < |old(lists)[src]|
      ensures lists == if ok then old(lists)[dest := old(lists)[dest] + Section(old(lists)[src], start, number)]
                       else old(lists)
    {
      hide Balanced, FreedOnce, Handles;
      if start >= |lists[src]| { return false; }
      var n := if start + number > |lists[src]| then |lists[src]| - start else number;
      ghost var d, s := lists[dest], lists[src];
      Grow(dest, n);
      var size := |lists[dest]| - n;
      var k := 0;
      FilledNone(d, s, start, n);
      while k < n
        invariant k <= n && size == |d| && start + n <= |s|
        invariant Valid() && held == old(held) && freed == old(freed) && cells.Keys == old(cells).Keys
        invariant lists == old(lists)[dest := Filled(d, s, start, n, k)]
      {
        SlotLive(cells, held, lists, src, start + k);
        FilledStep(d, s, start, n, k);
        Share(dest, size + k, lists[src][start + k]);
        k := k + 1;
      }
      assert Filled(d, s, start, n, n) == d + Section(s, start, number);
      return true;
    }

    /** A shallow copy of a list has a handle of its own on each object. */
    method CloneShallow(src: nat) returns (l: nat)
      requires Valid() && src < |lists|
      modifies this
      ensures Valid() && held == old(held) && freed == old(freed) && cells.Keys == old(cells).Keys
      ensures l == |old(lists)| && lists == old(lists) + [old(lists)[src]]
    {
      hide Balanced, FreedOnce, Handles;
      ghost var ls, s := lists, lists[src];
      l := ListCreate();
      var k := 0;
      while k < |lists[src]|
        invariant Valid() && held == old(held) && freed == old(freed) && cells.Keys == old(cells).Keys
        invariant l == |ls| && k <= |s| && lists == ls + [s[..k]]
      {
        Grow(l, 1);
        assert lists[l] == s[..k] + [None];
        SlotLive(cells, held, lists, src, k);
        Share(l, k, lists[src][k]);
        assert lists[l] == s[..k + 1];
        k := k + 1;
      }
      assert s[..k] == s;
    }

    /** A copy of the object, with the list as its only holder; an empty slot for none. */
    method AppendClone(l: nat, from: Option<id>) returns (o: Option<id>)
      requires Valid() && l < |lists| && (from.Some? ==> from.value in cells)
      modifies this
      ensures Valid() && held == old(held) && freed == old(freed) && (o.Some? <==> from.Some?)
      ensures lists == old(lists)[l := old(lists)[l] + [o]]
      ensures o.None? ==> cells == old(cells)
      ensures o.Some? ==> o.value !in old(cells) &&
                          cells == old(cells)[o.value := Cell(1, true, true, old(cells)[from.value].data)]
    {
      hide Balanced, FreedOnce, Handles;
      o := None;
      if from.Some? {
        var i := Create(true, cells[from.value].data);
        o := Some(i);
      }
      OneBag(o);
      Append(l, o);
    }

    /** A deep copy of a list has a handle on a copy of each object. */
    method CloneDeep(src: nat) returns (l: nat)
      requires Valid() && src < |lists|
      modifies this
      ensures Valid() && held == old(held) && freed == old(freed)
      ensures l == |old(lists)| == |lists| - 1 && lists[..l] == old(lists)
      ensures forall i <- old(cells) :: i in cells && cells[i] == old(cells)[i]
      ensures Copies(old(cells), old(lists)[src], cells, lists[l])
    {
      hide Balanced, FreedOnce, Handles, Copies;
      ghost var ls, s, was := lists, lists[src], cells;
      forall k | 0 <= k < |s| && s[k].Some? ensures s[k].value in cells {
        SlotLive(cells, held, lists, src, k);
      }
      l := ListCreate();
      var k := 0;
      NoCopies(was, s, cells);
      while k < |lists[src]|
        invariant Valid() && held == old(held) && freed == old(freed)
        invariant l == |ls| && k <= |s| && |lists| == l + 1 && lists[..l] == ls
        invariant forall i <- was :: i in cells && cells[i] == was[i]
        invariant Copies(was, s[..k], cells, lists[l])
      {
        ghost var now, c := lists[l], cells;
        assert lists[src] == ls[src];
        var o := AppendClone(l, lists[src][k]);
        OneCopy(was, s, k, c, now, cells, o);
        k := k + 1;
      }
      assert s[..k] == s;
    }

    /** A handle taken out of a list is given up. */
    method DropSlot(l: nat, k: nat)
      requires Valid() && l < |lists| && k < |lists[l]|
      modifies this
      ensures Valid() && held == old(held) && lists == old(lists)[l := old(lists)[l][k := None]]
      ensures Kinds(old(cells), cells)
    {
      hide Balanced, FreedOnce, Handles;
      if lists[l][k].Some? {
        var i := Take(l, k);
        Delete(i);
        KindsBut(old(cells), cells, i);
      } else {
        assert lists[l][k := None] == lists[l];
        assert lists[l := lists[l]] == lists;
      }
    }

    /** An emptied list gives its handles up, or leaves them to the caller. */
    method Clear(l: nat, delete: bool)
      requires Valid() && l < |lists|
      modifies this
      ensures Valid() && lists == old(lists)[l := []]
      ensures Kinds(old(cells), cells)
      ensures held == old(held) + if delete then multiset{} else Bag(old(lists)[l])
    {
      hide Balanced, FreedOnce, Handles, Kinds;
      KindsTrans(cells, cells, cells);
      ghost var ls, s, was := lists, lists[l], cells;
      if delete {
        var k := 0;
        while k < |lists[l]|
          invariant Valid() && held == old(held) && Kinds(was, cells)
          invariant k <= |s| && |lists| == |ls| && lists[l := s] == ls && |lists[l]| == |s|
          invariant forall j | 0 <= j < k :: lists[l][j].None?
        {
          ghost var c := cells;
          DropSlot(l, k);
          KindsTrans(was, c, cells);
          k := k + 1;
        }
        Emptied(cells, held, lists, l);
        lists := lists[l := []];
        assert lists == ls[l := []];
      } else {
        Handed(cells, held, lists, l);
        held := held + Bag(lists[l]);
        lists := lists[l := []];
      }
    }

    method Pad(l: nat, n: nat)
      requires Valid() && l < |lists|
      modifies this`lists
      ensures Valid() && lists == old(lists)[l := Padded(old(lists)[l], n)]
    {
      hide Balanced, FreedOnce, Handles;
      if |lists[l]| < n {
        Grow(l, n - |lists[l]|);
      } else {
        assert lists[l := lists[l]] == lists;
      }
    }

    method EmptySlot(l: nat, k: nat, freePrev: bool)
      requires Valid() && l < |lists| && k < |lists[l]|
      modifies this
      ensures Valid() && Kinds(old(cells), cells)
      ensures lists == old(lists)[l := old(lists)[l][k := None]]
      ensures held == old(held) + if freePrev then multiset{} else Bag([old(lists)[l][k]])
    {
      hide Balanced, FreedOnce, Handles, Kinds;
      KindsTrans(cells, cells, cells);
      OneBag(lists[l][k]);
      if freePrev {
        DropSlot(l, k);
      } else if lists[l][k].Some? {
        var _ := Take(l, k);
      } else {
        assert lists[l][k := None] == lists[l];
        assert lists[l := lists[l]] == lists;
      }
    }

    /** The slot takes over the caller's handle; the one it had is given up, or left to the caller. */
    method SetSlot(l: nat, k: nat, o: Option<id>, freePrev: bool)
      requires Valid() && l < |lists| && (o.Some? ==> o.value in held)
      modifies this
      ensures Valid() && Kinds(old(cells), cells)
      ensures var s := Padded(old(lists)[l], k + 1);
              && lists == old(lists)[l := s[k := o]]
              && held == old(held) + (if freePrev then multiset{} else Bag([s[k]])) - Bag([o])
    {
      hide Balanced, FreedOnce, Handles, Kinds, Padded, Bag;
      ghost var ls := lists;
      PaddedSize(lists[l], k);
      OneBag(o);
      Pad(l, k + 1);
      ghost var s := lists[l];
      EmptySlot(l, k, freePrev);
      TwoSets(ls, l, s, k, o);
      if o.Some? {
        Put(l, k, o.value);
      }
    }

    method Remove(l: nat, k: nat)
      requires Valid() && l < |lists|
      modifies this`held, this`lists
      ensures Valid()
      ensures var s := old(lists)[l];
              if k < |s| then
                && lists == old(lists)[l := s[..k] + s[k + 1..]]
                && held == old(held) + if s[k].Some? then multiset{s[k].value} else multiset{}
              else lists == old(lists) && held == old(held)
    {
      hide Balanced, FreedOnce;
      if k >= |lists[l]| { return; }
      ghost var h, ls, s := held, lists, lists[l];
      held := held + if lists[l][k].Some? then multiset{lists[l][k].value} else multiset{};
      lists := lists[l := lists[l][..k] + lists[l][k + 1..]];
      forall j ensures Handles(held, lists, j) == Handles(h, ls, j) {
        UsesJoin(s[..k], s[k + 1..], j);
        UsesJoin(s[..k], s[k..], j);
        assert s == s[..k] + s[k..] && s[k..][1..] == s[k + 1..];
        UsesAllSet(ls, l, lists[l], j);
      }
      SameHandles(cells, h, ls, held, lists);
    }

    /** The contents of two objects change places, and so do their `owned` flags; the counts stay.  The accounting
        survives this if and only if both objects are on the heap or neither is. */
    method Swap(a: id, b: id)
      requires Valid() && a in cells && b in cells
      modifies this`cells
      ensures cells == Swapped(old(cells), a, b)
      ensures Valid() <==> old(cells)[a].heap == old(cells)[b].heap
    {
      hide FreedOnce, Balanced;
      ghost var c := cells;
      var l, r := cells[a], cells[b];
      cells := cells[a := r.(heap := l.heap, count := l.count)];
      cells := cells[b := l.(heap := r.heap, count := r.count)];
      SwapBalance(c, held, lists, a, b, cells);
      SwapFreed(c, cells, freed, next);
    }
  }

  /** Slot by slot, a new object with the same content, or nothing for nothing. */
  ghost predicate Copies(was: map<id, Cell>, s: slots, now: map<id, Cell>, t: slots) {
    |t| == |s| &&
    forall k | 0 <= k < |s| ::
      (t[k].Some? <==> s[k].Some?) &&
      (s[k].Some? ==>
         && s[k].value in was && t[k].value !in was && t[k].value in now
         && now[t[k].value] == Cell(1, true, true, was[s[k].value].data))
  }

  lemma NoCopies(was: map<id, Cell>, s: slots, now: map<id, Cell>)
    ensures Copies(was, s[..0], now, [])
  {
  }

  lemma OneCopy(was: map<id, Cell>, s: slots, k: nat, c: map<id, Cell>, t: slots, now: map<id, Cell>, o: Option<id>)
    requires k < |s| && Copies(was, s[..k], c, t) && (o.Some? <==> s[k].Some?)
    requires o.None? ==> now == c
    requires o.Some? ==> s[k].value in was && o.value !in was && o.value !in c
                         && now == c[o.value := Cell(1, true, true, was[s[k].value].data)]
    ensures Copies(was, s[..k + 1], now, t + [o])
  {
    assert forall i | 0 <= i < k :: s[..k + 1][i] == s[..k][i];
  }

  lemma SwapFreed(c: map<id, Cell>, c': map<id, Cell>, freed: seq<id>, next: id)
    requires FreedOnce(c, freed, next) && c.Keys == c'.Keys
    ensures FreedOnce(c', freed, next)
  {
    assert forall i :: i in c <==> i in c.Keys;
  }

  lemma SwapBalance(c: map<id, Cell>, held: multiset<id>, lists: seq<slots>, a: id, b: id, c': map<id, Cell>)
    requires Balanced(c, held, lists) && a in c && b in c
    requires c' == c[a := c[a].(data := c[b].data, owned := c[b].owned)][b := c[b].(data := c[a].data, owned := c[a].owned)]
    ensures Balanced(c', held, lists) <==> c[a].heap == c[b].heap
  {
    hide Handles;
    assert CountedAt(c, held, lists, a) && CountedAt(c, held, lists, b);
    if c[a].heap == c[b].heap {
      forall j ensures CountedAt(c', held, lists, j) {
        assert CountedAt(c, held, lists, j);
      }
    } else {
      assert !CountedAt(c', held, lists, b);
    }
  }

  /** Nothing is new, the objects in callers' buffers remain, and no object changed its kind. */
  ghost predicate Kinds(was: map<id, Cell>, now: map<id, Cell>) {
    && (forall i <- now :: i in was && now[i].heap == was[i].heap)
    && (forall i <- was :: was[i].heap || i in now)
  }

  lemma KindsTrans(a: map<id, Cell>, b: map<id, Cell>, c: map<id, Cell>)
    ensures Kinds(a, a)
    ensures Kinds(a, b) && Kinds(b, c) ==> Kinds(a, c)
  {
  }

  lemma KindsBut(was: map<id, Cell>, now: map<id, Cell>, i: id)
    requires was - {i} == now - {i} && i in was
    requires i in now ==> now[i].heap == was[i].heap
    requires i in now || was[i].heap
    ensures Kinds(was, now)
  {
    forall j | j != i ensures (j in was <==> j in now) && (j in was ==> was[j] == now[j]) {
      assert j in was - {i} <==> j in now - {i};
      assert j in was ==> (was - {i})[j] == (now - {i})[j];
    }
  }

  function Bag(s: slots): multiset<id> {
    if s == [] then multiset{} else (if s[0].Some? then multiset{s[0].value} else multiset{}) + Bag(s[1..])
  }

  lemma PaddedSize(s: slots, k: nat)
    ensures |Padded(s, k + 1)| > k
  {
  }

  lemma TwoSets(ls: seq<slots>, l: nat, s: slots, k: nat, o: Option<id>)
    requires l < |ls| && k < |s|
    ensures ls[l := s][l := s[k := None]] == ls[l := s[k := None]]
    ensures ls[l := s[k := None]][l := s[k := None][k := o]] == ls[l := s[k := o]]
  {
    assert s[k := None][k := o] == s[k := o];
  }

  lemma OneBag(o: Option<id>)
    ensures Bag([o]) == if o.Some? then multiset{o.value} else multiset{}
  {
    assert [o][1..] == [];
  }

  function Padded(s: slots, n: nat): slots {
    if |s| < n then s + seq(n - |s|, _ => None) else s
  }

  lemma {:induction s} BagUses(s: slots, i: id)
    ensures Bag(s)[i] == Uses(s, i)
  {
  }

  lemma Handed(cells: map<id, Cell>, held: multiset<id>, lists: seq<slots>, l: nat)
    requires Balanced(cells, held, lists) && l < |lists|
    ensures Balanced(cells, held + Bag(lists[l]), lists[l := []])
  {
    hide Balanced;
    forall j ensures Handles(held + Bag(lists[l]), lists[l := []], j) == Handles(held, lists, j) {
      BagUses(lists[l], j);
      UsesAllSet(lists, l, [], j);
    }
    SameHandles(cells, held, lists, held + Bag(lists[l]), lists[l := []]);
  }

  lemma Emptied(cells: map<id, Cell>, held: multiset<id>, lists: seq<slots>, l: nat)
    requires Balanced(cells, held, lists) && l < |lists| && forall k | 0 <= k < |lists[l]| :: lists[l][k].None?
    ensures Balanced(cells, held, lists[l := []])
  {
    hide Balanced;
    forall j ensures Handles(held, lists[l := []], j) == Handles(held, lists, j) {
      NoUses(lists[l], j);
      UsesAllSet(lists, l, [], j);
    }
    SameHandles(cells, held, lists, held, lists[l := []]);
  }

  function Section(s: slots, start: nat, number: nat): slots
    requires start < |s|
  {
    if start + number > |s| then s[start..] else s[start..start + number]
  }

  /** The list `d` with `n` new slots, of which `k` are filled from `s`. */
  function Filled(d: slots, s: slots, start: nat, n: nat, k: nat): slots
    requires k <= n && start + n <= |s|
  {
    d + s[start..start + k] + seq(n - k, _ => None)
  }

  lemma FilledNone(d: slots, s: slots, start: nat, n: nat)
    requires start + n <= |s|
    ensures Filled(d, s, start, n, 0) == d + seq(n, _ => None)
  {
  }

  lemma FilledStep(d: slots, s: slots, start: nat, n: nat, k: nat)
    requires k < n && start + n <= |s|
    ensures var f := Filled(d, s, start, n, k);
            && |f| == |d| + n && f[|d| + k].None?
            && (forall j | 0 <= j < |d| :: f[j] == d[j])
            && f[|d| + k := s[start + k]] == Filled(d, s, start, n, k + 1)
  {
  }

  /** What is in a slot is live. */
  lemma SlotLive(cells: map<id, Cell>, held: multiset<id>, lists: seq<slots>, l: nat, k: nat)
    requires Balanced(cells, held, lists) && l < |lists| && k < |lists[l]|
    ensures lists[l][k].Some? ==> lists[l][k].value in cells && Handles(held, lists, lists[l][k].value) >= 1
  {
    if lists[l][k].Some? {
      UsesAtLeast(lists, l, k);
      assert CountedAt(cells, held, lists, lists[l][k].value);
    }
  }
}
