/** Merging the attributes of one object into another. */
module Merge {
  import opened Bytes
  import opened Tlv

  /** With duplicate removal, a source attribute replaces every destination attribute of the same tag, and a
      tag with a zero-length source entry vanishes altogether; nothing is removed for an empty destination. */
  function Merged(d: seq<byte>, s: seq<byte>, removeDup: bool): seq<byte> {
    if s == [] then d
    else if removeDup && d != [] then
      Flat(Drop(Parse(d), Tags(Parse(s)))) + Flat(Drop(Parse(s), EmptyTags(Parse(s))))
    else d + s
  }

  lemma MergedParses(d: seq<byte>, s: seq<byte>)
    requires Exact(d) && Exact(s) && d != [] && s != []
    ensures Parse(Merged(d, s, true)) == Join(Drop(Parse(d), Tags(Parse(s))), Drop(Parse(s), EmptyTags(Parse(s))))
    ensures Exact(Merged(d, s, true))
  {
    hide Parse;
    var a, b := Drop(Parse(d), Tags(Parse(s))), Drop(Parse(s), EmptyTags(Parse(s)));
    FlatParse(d);
    FlatParse(s);
    DropStorable(Parse(d), Tags(Parse(s)));
    DropStorable(Parse(s), EmptyTags(Parse(s)));
    FlatJoin(a, b);
    JoinStorable(a, b);
    ParseFlat(Join(a, b));
  }

  lemma {:induction r} AllDrop(r: Run, ids: set<nat>, t: nat)
    ensures All(Drop(r, ids), t) == if t in ids then [] else All(r, t)
  {
  }

  lemma {:induction r} AllJoin(r: Run, x: Run, t: nat)
    ensures All(Join(r, x), t) == All(r, t) + All(x, t)
  {
  }

  lemma {:induction r} AllAbsent(r: Run, t: nat)
    ensures t in Tags(r) <==> All(r, t) != []
    ensures t in EmptyTags(r) <==> [] in All(r, t)
  {
  }

  lemma NothingMerged(d: seq<byte>, t: nat)
    ensures Merged(d, [], true) == d && All(Parse([]), t) == []
  {
    assert !Valid([]);
  }

  lemma EmptyTakesAll(s: seq<byte>)
    ensures Merged([], s, true) == s
  {
    assert [] + s == s;
  }

  /** The last writer wins, tag by tag; an empty destination takes everything as it is. */
  lemma MergeLaw(d: seq<byte>, s: seq<byte>, t: nat)
    requires Exact(d) && Exact(s)
    ensures All(Parse(Merged(d, s, true)), t) ==
            if All(Parse(s), t) == [] then All(Parse(d), t)
            else if d != [] && [] in All(Parse(s), t) then []
            else All(Parse(s), t)
  {
    hide Parse, All, Drop, Tags, EmptyTags, Merged;
    AllAbsent(Parse(s), t);
    if s == [] {
      NothingMerged(d, t);
    } else if d == [] {
      EmptyTakesAll(s);
      NothingMerged(d, t);
    } else {
      MergedParses(d, s);
      AllJoin(Drop(Parse(d), Tags(Parse(s))), Drop(Parse(s), EmptyTags(Parse(s))), t);
      AllDrop(Parse(d), Tags(Parse(s)), t);
      AllDrop(Parse(s), EmptyTags(Parse(s)), t);
    }
  }

  lemma {:induction r} DropJoin(r: Run, x: Run, ids: set<nat>)
    ensures Drop(Join(r, x), ids) == Join(Drop(r, ids), Drop(x, ids))
  {
  }

  lemma {:induction r} DropAll(r: Run, ids: set<nat>)
    requires Complete(r) && Tags(r) <= ids
    ensures Drop(r, ids) == End([])
  {
  }

  lemma {:induction r} DropTags(r: Run, ids: set<nat>)
    ensures Tags(Drop(r, ids)) <= Tags(r)
  {
  }

  lemma {:induction r} JoinEnd(r: Run)
    requires Complete(r)
    ensures Join(r, End([])) == r
  {
  }

  /** When repeating a merge changes nothing: there is nothing to merge; or, for an empty destination, no zero-length
      entry was stored; or, for any other, something is left to merge into. */
  lemma MergeTwice(d: seq<byte>, s: seq<byte>)
    requires Exact(d) && Exact(s)
    ensures Merged(Merged(d, s, true), s, true) == Merged(d, s, true) <==>
            s == [] || (if d == [] then EmptyTags(Parse(s)) == {} else Merged(d, s, true) != [])
  {
    hide Parse, Merged, EmptyTags;
    if s == [] {
      NothingMerged(d, 0);
    } else if d == [] {
      EmptyTakesAll(s);
      MergeSelf(s);
    } else if Merged(d, s, true) == [] {
      EmptyTakesAll(s);
    } else {
      MergeAgain(d, s);
    }
  }

  lemma MergeAgain(d: seq<byte>, s: seq<byte>)
    requires Exact(d) && Exact(s) && d != [] && s != [] && Merged(d, s, true) != []
    ensures Merged(Merged(d, s, true), s, true) == Merged(d, s, true)
  {
    hide Parse;
    var m, r, ids, zero := Merged(d, s, true), Parse(s), Tags(Parse(s)), EmptyTags(Parse(s));
    var a, b := Drop(Parse(d), ids), Drop(r, zero);
    MergedParses(d, s);
    DropJoin(a, b, ids);
    DropDrop(Parse(d), ids, ids);
    assert ids + ids == ids;
    FlatParse(s);
    DropStorable(r, zero);
    DropTags(r, zero);
    DropAll(b, ids);
    FlatParse(d);
    DropStorable(Parse(d), ids);
    JoinEnd(a);
    assert Merged(m, s, true) == Flat(a) + Flat(b);
  }

  /** Merged into itself, an object loses its tags with a zero-length entry. */
  lemma MergeSelf(s: seq<byte>)
    requires Exact(s) && s != []
    ensures Merged(s, s, true) == s <==> EmptyTags(Parse(s)) == {}
  {
    hide Parse;
    var r, zero := Parse(s), EmptyTags(Parse(s));
    DropAll(r, Tags(r));
    FlatParse(s);
    assert Merged(s, s, true) == [] + Flat(Drop(r, zero)) == Flat(Drop(r, zero));
    EmptyAreTags(r);
    assert zero !! Tags(r) <==> zero == {};
    DropShrinks(r, zero);
  }

  lemma {:induction r} EmptyAreTags(r: Run)
    ensures EmptyTags(r) <= Tags(r)
  {
  }

  lemma {:induction false} DropShrinks(r: Run, ids: set<nat>)
    ensures ids !! Tags(r) ==> Drop(r, ids) == r
    ensures |Flat(Drop(r, ids))| <= |Flat(r)| && (!(ids !! Tags(r)) ==> |Flat(Drop(r, ids))| < |Flat(r)|)
  {
    if r.Attr? {
      DropShrinks(r.rest, ids);
    }
  }

  /** A merge that deletes the only attribute of an object leaves an empty object; merged again, the
      zero-length entry that asked for the deletion is stored. */
  lemma MergeTwiceFails(t: nat, x: byte)
    requires t < U64
    ensures var d, s := Flat(Attr(t, [x], End([]))), Flat(Attr(t, [], End([])));
            && Merged(d, s, true) == []
            && Merged(Merged(d, s, true), s, true) == s != []
  {
    hide Parse;
    var rd, rs := Attr(t, [x], End([])), Attr(t, [], End([]));
    assert !Valid([]);
    ParseFlat(rd);
    ParseFlat(rs);
    assert |Flat(rd)| > 0 && |Flat(rs)| > 0;
    assert Drop(rd, Tags(rs)) == End([]) && Drop(rs, EmptyTags(rs)) == End([]);
    assert [] + Flat(rs) == Flat(rs);
  }

  /** An empty destination: the zero-length entry is stored by the first merge, and removed by the second. */
  lemma MergeTwiceFailsFromEmpty(t: nat)
    requires t < U64
    ensures var s := Flat(Attr(t, [], End([])));
            && Merged([], s, true) == s != []
            && Merged(Merged([], s, true), s, true) == []
  {
    hide Parse;
    var r := Attr(t, [], End([]));
    assert !Valid([]);
    ParseFlat(r);
    assert |Flat(r)| > 0;
    EmptyTakesAll(Flat(r));
    assert Drop(r, Tags(r)) == End([]) && Drop(r, EmptyTags(r)) == End([]);
    assert Flat(End([])) == [];
  }
}
