/** Removing the temporary attributes of an object.  After each removal the walk begins anew, and steps over the
    attribute that is then the first. */
module Compact {
  import opened Bytes
  import opened Tlv

  type kind = nat -> bool

  /** The first temporary attribute. */
  function FirstTemp(r: Run, temp: kind): Option<nat> {
    match r
    case End(_) => None
    case Attr(t, _, rest) => if temp(t) then Some(t) else FirstTemp(rest, temp)
  }

  function Step(r: Run): Run {
    if r.Attr? then r.rest else r
  }

  function Size(r: Run): nat {
    match r
    case End(_) => 0
    case Attr(_, _, rest) => 1 + Size(rest)
  }

  /** The run without its temporary attributes: what is wanted. */
  function Lasting(r: Run, temp: kind): Run {
    match r
    case End(_) => r
    case Attr(t, v, rest) => if temp(t) then Lasting(rest, temp) else Attr(t, v, Lasting(rest, temp))
  }

  /** What becomes of a run once something was removed. */
  function Resumed(r: Run, temp: kind): Run
    decreases Size(r)
  {
    match FirstTemp(Step(r), temp)
    case None => r
    case Some(t) =>
      FoundSmaller(r, temp);
      Resumed(Drop(r, {t}), temp)
  }

  function Compacted(r: Run, temp: kind): Run {
    match FirstTemp(r, temp)
    case None => r
    case Some(t) => Resumed(Drop(r, {t}), temp)
  }

  lemma {:induction r} DropSize(r: Run, t: nat)
    ensures Size(Drop(r, {t})) <= Size(r) && (t in Tags(r) ==> Size(Drop(r, {t})) < Size(r))
  {
  }

  lemma {:induction r} FirstIs(r: Run, temp: kind)
    ensures var f := FirstTemp(r, temp);
            if f.Some? then f.value in Tags(r) && temp(f.value) else forall t <- Tags(r) :: !temp(t)
  {
  }

  lemma FoundSmaller(r: Run, temp: kind)
    requires FirstTemp(Step(r), temp).Some?
    ensures Size(Drop(r, {FirstTemp(Step(r), temp).value})) < Size(r)
  {
    FirstIs(Step(r), temp);
    DropSize(r, FirstTemp(Step(r), temp).value);
  }

  lemma {:induction r} LastingDrop(r: Run, temp: kind, t: nat)
    requires temp(t)
    ensures Lasting(Drop(r, {t}), temp) == Lasting(r, temp)
  {
  }

  lemma {:induction r} AllLasting(r: Run, temp: kind)
    requires FirstTemp(r, temp).None?
    ensures Lasting(r, temp) == r
  {
  }

  /** The first attribute of the result can be a temporary one; all others are as wanted. */
  lemma {:induction false} ResumedKeeps(r: Run, temp: kind)
    ensures var c := Resumed(r, temp);
            Lasting(c, temp) == Lasting(r, temp) && FirstTemp(Step(c), temp).None?
    decreases Size(r)
  {
    var f := FirstTemp(Step(r), temp);
    if f.Some? {
      FoundSmaller(r, temp);
      FirstIs(Step(r), temp);
      LastingDrop(r, temp, f.value);
      ResumedKeeps(Drop(r, {f.value}), temp);
    }
  }

  lemma CompactKeeps(r: Run, temp: kind)
    ensures var c := Compacted(r, temp);
            Lasting(c, temp) == Lasting(r, temp) && FirstTemp(Step(c), temp).None?
  {
    var f := FirstTemp(r, temp);
    if f.Some? {
      FirstIs(r, temp);
      LastingDrop(r, temp, f.value);
      ResumedKeeps(Drop(r, {f.value}), temp);
    } else if r.Attr? {
      assert FirstTemp(r.rest, temp).None?;
    }
  }

  lemma Begin(r: Run, temp: kind)
    ensures FirstTemp(r, temp).None? ==> Compacted(r, temp) == r
    ensures FirstTemp(Step(r), temp).None? ==> Resumed(r, temp) == r
  {
  }

  /** The walk has come to a temporary attribute. */
  lemma Found(cur: Run, r: Run, removed: bool, t: nat, temp: kind)
    requires FirstTemp(if removed then Step(cur) else r, temp) == Some(t) && (!removed ==> cur == r)
    ensures t in Tags(cur)
    ensures Resumed(Drop(cur, {t}), temp) == if removed then Resumed(cur, temp) else Compacted(r, temp)
  {
    FirstIs(if removed then Step(cur) else r, temp);
  }

  // ---- when nothing temporary is left ----

  /** The temporary tags up to the first attribute with tag `t`, and that one. */
  function Upto(r: Run, temp: kind, t: nat): set<nat> {
    match r
    case End(_) => {}
    case Attr(u, _, rest) => if u == t then {t} else (if temp(u) then {u} else {}) + Upto(rest, temp, t)
  }

  /** A temporary attribute at the front goes only if its tag occurs again; all temporary tags up to there go with it,
      and then the same holds of what is at the front. */
  predicate Freed(r: Run, temp: kind)
    decreases Size(r)
  {
    r.End? || !temp(r.tag) ||
    (r.tag in Tags(r.rest) &&
     (FreedSmaller(r, temp);
      Freed(Drop(r, Upto(r.rest, temp, r.tag)), temp)))
  }

  lemma {:induction r} UptoHas(r: Run, temp: kind, t: nat)
    requires t in Tags(r)
    ensures t in Upto(r, temp, t)
  {
  }

  lemma {:induction r} DropsSize(r: Run, ids: set<nat>)
    ensures Size(Drop(r, ids)) <= Size(r)
  {
  }

  lemma FreedSmaller(r: Run, temp: kind)
    requires r.Attr? && r.tag in Tags(r.rest)
    ensures Size(Drop(r, Upto(r.rest, temp, r.tag))) < Size(r)
  {
    UptoHas(r.rest, temp, r.tag);
    DropsSize(r.rest, Upto(r.rest, temp, r.tag));
  }

  /** Removing the first temporary tag, if it is not `t`, takes it out of the tags up to `t`. */
  lemma {:induction false} UptoDrop(r: Run, temp: kind, t: nat)
    requires FirstTemp(r, temp).Some? && FirstTemp(r, temp).value != t && temp(t)
    ensures var x := FirstTemp(r, temp).value; Upto(Drop(r, {x}), temp, t) + {x} == Upto(r, temp, t)
  {
    var x := FirstTemp(r, temp).value;
    FirstIs(r, temp);
    if r.tag == x {
      UptoWithout(r.rest, temp, t, x);
    } else {
      UptoDrop(r.rest, temp, t);
    }
  }

  lemma {:induction r} UptoWithout(r: Run, temp: kind, t: nat, x: nat)
    requires x != t && temp(x)
    ensures Upto(Drop(r, {x}), temp, t) == Upto(r, temp, t) - {x}
  {
  }

  lemma {:induction r} TagsDrop(r: Run, x: nat)
    ensures Tags(Drop(r, {x})) == Tags(r) - {x}
  {
  }

  lemma {:induction r} UptoFirst(r: Run, temp: kind)
    requires FirstTemp(r, temp).Some?
    ensures Upto(r, temp, FirstTemp(r, temp).value) == {FirstTemp(r, temp).value}
  {
  }

  lemma {:induction false} ResumedClean(r: Run, temp: kind)
    ensures FirstTemp(Resumed(r, temp), temp).None? <==> Freed(r, temp)
    decreases Size(r)
  {
    var f := FirstTemp(Step(r), temp);
    if f.None? {
      if r.Attr? {
        FirstIs(r.rest, temp);
      }
    } else {
      var x := f.value;
      FoundSmaller(r, temp);
      ResumedClean(Drop(r, {x}), temp);
      FirstIs(r.rest, temp);
      if !temp(r.tag) {
        assert Drop(r, {x}).Attr? && Drop(r, {x}).tag == r.tag;
      } else if r.tag == x {
        UptoFirst(r.rest, temp);
      } else {
        TagsDrop(r.rest, x);
        UptoDrop(r.rest, temp, r.tag);
        DropDrop(r, {x}, Upto(Drop(r.rest, {x}), temp, r.tag));
        assert {x} + Upto(Drop(r.rest, {x}), temp, r.tag) == Upto(r.rest, temp, r.tag);
      }
    }
  }

  /** Compaction leaves exactly the lasting attributes if and only if the object has no temporary attribute in front, or
      what stands there once its tag is gone is freed in turn. */
  lemma CompactExact(r: Run, temp: kind)
    ensures Compacted(r, temp) == Lasting(r, temp) <==>
            r.End? || !temp(r.tag) || Freed(Drop(r, {r.tag}), temp)
  {
    var c := Compacted(r, temp);
    CompactKeeps(r, temp);
    CleanIs(c, temp);
    var f := FirstTemp(r, temp);
    if f.Some? {
      FirstIs(r, temp);
      ResumedClean(Drop(r, {f.value}), temp);
    }
  }

  lemma CleanIs(c: Run, temp: kind)
    requires FirstTemp(Step(c), temp).None?
    ensures Lasting(c, temp) == c <==> FirstTemp(c, temp).None?
  {
    if c.Attr? {
      AllLasting(c.rest, temp);
      SelfLonger(c);
    }
  }

  lemma {:induction c} SelfLonger(c: Run)
    requires c.Attr?
    ensures c != c.rest
  {
  }

  /** Two different temporary attributes in front: the second one stays. */
  lemma CompactFails(t: nat, u: nat, temp: kind)
    requires t != u && temp(t) && temp(u)
    ensures Compacted(Attr(t, [], Attr(u, [], End([]))), temp) == Attr(u, [], End([]))
  {
    var r := Attr(u, [], End([]));
    assert Drop(End([]), {t}) == End([]);
    assert Drop(r, {t}) == r;
    assert Step(r) == End([]);
    Begin(r, temp) by { assert FirstTemp(End([]), temp).None?; }
  }
}
