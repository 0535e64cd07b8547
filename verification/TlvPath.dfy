/** Nested attributes: a path of tags descends through the first sibling carrying each tag. */
module TlvPath {
  import opened Bytes
  import opened Tlv

  type path = p: seq<nat> | |p| >= 1 && forall t :: t in p ==> t < U64 witness [0]

  /** Path lookup: each step enters the first sibling with the next tag and stays inside its value. */
  function Lookup(b: seq<byte>, q: seq<nat>): Option<seq<byte>>
    decreases |q|
  {
    if q == [] then None
    else
      match Seek(Parse(b), q[0])
      case None => None
      case Some(v) => if |q| == 1 then Some(v) else Lookup(v, q[1..])
  }

  /** How many containers of `p` (its last tag names no container) exist in `b`. */
  function Depth(b: seq<byte>, p: seq<nat>): (k: nat)
    ensures |p| >= 1 ==> k < |p|
    decreases |p|
  {
    if |p| <= 1 then 0
    else
      match Seek(Parse(b), p[0])
      case None => 0
      case Some(v) => 1 + Depth(v, p[1..])
  }

  /** The same count when the scan is bounded by the end of the object and not by the container. */
  function WideDepth(b: seq<byte>, p: seq<nat>): (k: nat)
    ensures |p| >= 1 ==> k < |p|
    decreases |p|
  {
    if |p| <= 1 then 0
    else
      match Seek(Parse(b), p[0])
      case None => 0
      case Some(v) => 1 + WideDepth(v + After(Parse(b), p[0]), p[1..])
  }

  /** The content of the deepest container of `p` that exists. */
  function Deepest(b: seq<byte>, p: seq<nat>): (v: seq<byte>)
    decreases |p|
  {
    if |p| <= 1 then b
    else
      match Seek(Parse(b), p[0])
      case None => b
      case Some(v) => Deepest(v, p[1..])
  }

  /** Everything stored after that container, up to the end of the object. */
  function Tail(b: seq<byte>, p: seq<nat>): seq<byte>
    decreases |p|
  {
    if |p| <= 1 then []
    else
      match Seek(Parse(b), p[0])
      case None => []
      case Some(v) => Tail(v, p[1..]) + After(Parse(b), p[0])
  }

  /** `ins` appended to the deepest existing container, every enclosing length corrected. */
  function Splice(b: seq<byte>, p: seq<nat>, ins: seq<byte>): seq<byte>
    decreases |p|
  {
    if |p| <= 1 then b + ins
    else
      match Seek(Parse(b), p[0])
      case None => b + ins
      case Some(v) => Flat(Put(Parse(b), p[0], Splice(v, p[1..], ins)))
  }

  /** An attribute holding `d`, wrapped in one fresh container per remaining tag. */
  function Nest(p: seq<nat>, d: seq<byte>): (r: seq<byte>)
    requires |p| >= 1
    decreases |p|
  {
    var v := if |p| == 1 then d else Nest(p[1..], d);
    Header(p[0], |v|) + v
  }

  /** The space that `n` headers take. */
  function Headers(n: nat): nat { HDR * n }

  /** What adding `d` at `p` is meant to produce. */
  function AddAt(b: seq<byte>, p: seq<nat>, d: seq<byte>): seq<byte>
    requires |p| >= 1
  {
    Splice(b, p, Nest(p[Depth(b, p)..], d))
  }

  // ---- splicing ----

  lemma {:induction false} SpliceSize(b: seq<byte>, p: path, ins: seq<byte>)
    ensures |Splice(b, p, ins)| == |b| + |ins|
    decreases |p|
  {
    if |p| > 1 && Seek(Parse(b), p[0]).Some? {
      var v := Seek(Parse(b), p[0]).value;
      FlatParse(b);
      PutParts(Parse(b), p[0], Splice(v, p[1..], ins));
      SpliceSize(v, p[1..], ins);
    }
  }

  /** One level of a splice that descends. */
  lemma SpliceStep(b: seq<byte>, p: path, ins: seq<byte>)
    requires |p| > 1 && Seek(Parse(b), p[0]).Some? && |b| + |ins| < U64
    ensures var v := Seek(Parse(b), p[0]).value;
            && |v| <= |b|
            && Parse(Splice(b, p, ins)) == Put(Parse(b), p[0], Splice(v, p[1..], ins))
  {
    var v := Seek(Parse(b), p[0]).value;
    FlatParse(b);
    PutParts(Parse(b), p[0], Splice(v, p[1..], ins));
    SpliceSize(v, p[1..], ins);
    ParseFlat(Put(Parse(b), p[0], Splice(v, p[1..], ins)));
  }

  /** Two sequences with the same head, one level further down. */
  lemma PrefixTail(x: seq<nat>, y: seq<nat>)
    requires |x| >= 1 && |y| >= 1
    ensures x <= y <==> x[0] == y[0] && x[1..] <= y[1..]
  {
    if x <= y {
      assert x == y[..|x|];
      assert x[1..] == y[1..][..|x| - 1];
    }
  }

  lemma OneDown(p: seq<nat>, q: seq<nat>, k: nat)
    requires 1 <= k <= |p| && |q| >= 1
    ensures q <= p[..k] <==> q[0] == p[0] && q[1..] <= p[1..][..k - 1]
    ensures p[..k] <= q <==> q[0] == p[0] && p[1..][..k - 1] <= q[1..]
    ensures |q| <= |p| ==> p[|q|..] == p[1..][|q| - 1..]
    ensures k <= |q| ==> q[k..] == q[1..][k - 1..]
  {
    assert p[..k][1..] == p[1..][..k - 1];
    PrefixTail(q, p[..k]);
    PrefixTail(p[..k], q);
  }

  /** What a lookup of `q` finds after `ins` was spliced in at `p`. */
  function Seen(b: seq<byte>, p: path, ins: seq<byte>, q: seq<nat>): Option<seq<byte>>
    requires |q| >= 1
  {
    var k := Depth(b, p);
    if q <= p[..k] && Lookup(b, q).Some? then Some(Splice(Lookup(b, q).value, p[|q|..], ins))
    else if k < |q| && p[..k] <= q && Lookup(b, q[..k + 1]).None? then Lookup(ins, q[k..])
    else Lookup(b, q)
  }

  lemma {:induction false} SpliceLookup(b: seq<byte>, p: path, ins: seq<byte>, q: seq<nat>)
    requires |q| >= 1 && |b| + |ins| < U64 && Exact(Deepest(b, p))
    ensures Lookup(Splice(b, p, ins), q) == Seen(b, p, ins, q)
    decreases |p|
  {
    if |p| == 1 || Seek(Parse(b), p[0]).None? {
      AppendLookup(b, ins, q);
      SeenHere(b, p, ins, q);
    } else {
      var v := Seek(Parse(b), p[0]).value;
      SpliceStep(b, p, ins);
      PutLookup(b, Splice(b, p, ins), p[0], Splice(v, p[1..], ins), q);
      if q[0] == p[0] && |q| > 1 {
        SpliceLookup(v, p[1..], ins, q[1..]);
        SeenDown(b, p, ins, q);
      } else {
        SeenAbove(b, p, ins, q);
      }
    }
  }

  lemma SeenHere(b: seq<byte>, p: path, ins: seq<byte>, q: seq<nat>)
    requires |q| >= 1 && (|p| == 1 || Seek(Parse(b), p[0]).None?)
    ensures Seen(b, p, ins, q) == if Seek(Parse(b), q[0]).Some? then Lookup(b, q) else Lookup(ins, q)
  {
    assert q[0..] == q && q[..1][0] == q[0];
  }

  lemma SeenAbove(b: seq<byte>, p: path, ins: seq<byte>, q: seq<nat>)
    requires |p| > 1 && Seek(Parse(b), p[0]).Some? && |q| >= 1 && (q[0] != p[0] || |q| == 1)
    ensures Seen(b, p, ins, q) ==
            if q[0] != p[0] then Lookup(b, q) else Some(Splice(Seek(Parse(b), p[0]).value, p[1..], ins))
  {
    OneDown(p, q, Depth(b, p));
    assert |q| == 1 ==> q[1..] == [];
  }

  lemma PutLookup(b: seq<byte>, b': seq<byte>, tag: nat, w: seq<byte>, q: seq<nat>)
    requires |q| >= 1 && Seek(Parse(b), tag).Some? && Parse(b') == Put(Parse(b), tag, w)
    ensures Lookup(b', q) ==
            if q[0] != tag then Lookup(b, q) else if |q| == 1 then Some(w) else Lookup(w, q[1..])
  {
    PutSeek(Parse(b), tag, w, q[0]);
  }

  lemma AppendLookup(b: seq<byte>, ins: seq<byte>, q: seq<nat>)
    requires |q| >= 1 && Exact(b)
    ensures Lookup(b + ins, q) == if Seek(Parse(b), q[0]).Some? then Lookup(b, q) else Lookup(ins, q)
  {
    ParseAppend(b, ins);
    JoinSeek(Parse(b), Parse(ins), q[0]);
  }

  lemma SeenDown(b: seq<byte>, p: path, ins: seq<byte>, q: seq<nat>)
    requires |p| > 1 && Seek(Parse(b), p[0]).Some? && |q| > 1 && q[0] == p[0]
    ensures Seen(b, p, ins, q) == Seen(Seek(Parse(b), p[0]).value, p[1..], ins, q[1..])
  {
    var k := Depth(b, p);
    OneDown(p, q, k);
    if k < |q| {
      assert q[..k + 1][1..] == q[1..][..k];
    }
  }

  /** Adding keeps an exact run exact, whatever is in the container it lands in. */
  lemma SpliceExact(b: seq<byte>, p: path, ins: seq<byte>)
    requires Exact(b) && Exact(ins) && |b| + |ins| < U64
    ensures Exact(Splice(b, p, ins))
  {
    if |p| == 1 || Seek(Parse(b), p[0]).None? {
      ParseAppend(b, ins);
      FlatParse(b);
      FlatParse(ins);
      JoinStorable(Parse(b), Parse(ins));
    } else {
      var v := Seek(Parse(b), p[0]).value;
      SpliceStep(b, p, ins);
      PutSeek(Parse(b), p[0], Splice(v, p[1..], ins), p[0]);
    }
  }

  // ---- fresh containers ----

  lemma NestParses(p: path, d: seq<byte>)
    requires |Nest(p, d)| < U64
    ensures Parse(Nest(p, d)) == Attr(p[0], if |p| == 1 then d else Nest(p[1..], d), End([]))
  {
    var v := if |p| == 1 then d else Nest(p[1..], d);
    ParseFlat(Attr(p[0], v, End([])));
    assert Header(p[0], |v|) + v + [] == Nest(p, d);
  }

  lemma {:induction false} NestLookup(p: path, d: seq<byte>)
    requires |Nest(p, d)| < U64
    ensures Lookup(Nest(p, d), p) == Some(d)
    decreases |p|
  {
    NestParses(p, d);
    if |p| > 1 {
      NestLookup(p[1..], d);
    }
  }

  // ---- the laws of adding ----

  /** Below the containers of `p` that exist, a lookup goes on in the deepest of them. */
  lemma {:induction false} DeepLookup(b: seq<byte>, p: path, q: seq<nat>)
    requires Depth(b, p) < |q| && p[..Depth(b, p)] <= q
    ensures Lookup(b, q) == Lookup(Deepest(b, p), q[Depth(b, p)..])
    decreases |p|
  {
    var k := Depth(b, p);
    if k == 0 {
      assert q[0..] == q;
    } else {
      OneDown(p, q, k);
      DeepLookup(Seek(Parse(b), p[0]).value, p[1..], q[1..]);
    }
  }

  /** The descent stops where the next container is missing. */
  lemma {:induction false} DepthStops(b: seq<byte>, p: path)
    requires Depth(b, p) + 1 < |p|
    ensures Seek(Parse(Deepest(b, p)), p[Depth(b, p)]).None?
    decreases |p|
  {
    if Depth(b, p) > 0 {
      DepthStops(Seek(Parse(b), p[0]).value, p[1..]);
    }
  }

  /** Where the path of the lookup and the containers part, the deepest container decides. */
  lemma NextStep(b: seq<byte>, p: path, q: seq<nat>)
    requires Depth(b, p) < |q| && p[..Depth(b, p)] <= q
    ensures var k := Depth(b, p);
            && Lookup(b, q[..k + 1]) == Seek(Parse(Deepest(b, p)), q[k])
            && (Lookup(b, q[..k + 1]).None? ==> Lookup(b, q).None?)
  {
    hide Parse, Seek, Deepest, Depth, Lookup;
    var k := Depth(b, p);
    PrefixOfPrefix(p[..k], q, k + 1);
    DeepLookup(b, p, q[..k + 1]);
    DeepLookup(b, p, q);
    LookupOne(Deepest(b, p), q[k]);
    LookupFirst(Deepest(b, p), q[k..]);
    assert q[..k + 1][k..] == [q[k]];
  }

  lemma PrefixOfPrefix(a: seq<nat>, q: seq<nat>, n: nat)
    requires a <= q && |a| <= n <= |q|
    ensures a <= q[..n]
  {
    assert a == q[..|a|] == q[..n][..|a|];
  }

  lemma LookupOne(b: seq<byte>, t: nat)
    ensures Lookup(b, [t]) == Seek(Parse(b), t)
  {
    hide Parse, Seek;
  }

  lemma LookupFirst(b: seq<byte>, q: seq<nat>)
    requires q != []
    ensures Seek(Parse(b), q[0]).None? ==> Lookup(b, q).None?
  {
    hide Parse, Seek;
  }

  /** The next prefix of a path resolves iff it is the whole path and that was stored before. */
  lemma NextPrefix(b: seq<byte>, p: path)
    ensures var k := Depth(b, p);
            && Lookup(b, p[..k + 1]) == Seek(Parse(Deepest(b, p)), p[k])
            && (k + 1 < |p| ==> Lookup(b, p[..k + 1]).None?)
  {
    NextStep(b, p, p);
    if Depth(b, p) + 1 < |p| {
      DepthStops(b, p);
    }
  }

  /** A prefix that names an existing container leaves the remaining containers to find inside it. */
  lemma {:induction false} Enclosing(b: seq<byte>, p: path, m: nat)
    requires 1 <= m <= Depth(b, p)
    ensures Lookup(b, p[..m]).Some?
    ensures Depth(Lookup(b, p[..m]).value, p[m..]) == Depth(b, p) - m
    decreases m
  {
    if m > 1 {
      Enclosing(Seek(Parse(b), p[0]).value, p[1..], m - 1);
      assert p[..m][1..] == p[1..][..m - 1];
      assert p[m..] == p[1..][m - 1..];
    }
  }

  /** A path that did not resolve resolves, after data is added there, to exactly that data. */
  lemma AddThenLookup(b: seq<byte>, p: path, d: seq<byte>)
    requires Exact(Deepest(b, p)) && |AddAt(b, p, d)| < U64
    requires Lookup(b, p).None?
    ensures Lookup(AddAt(b, p, d), p) == Some(d)
  {
    var k := Depth(b, p);
    NextPrefix(b, p);
    if k + 1 == |p| {
      assert p[..k + 1] == p;
    }
    AddFrame(b, p, d, p);
    SpliceSize(b, p, Nest(p[k..], d));
    NestLookup(p[k..], d);
  }

  /** Every other lookup: one that ends on an enclosing container sees that container grown, one that
      goes through the new attribute sees only the new attribute, and all others are unchanged. */
  lemma AddFrame(b: seq<byte>, p: path, d: seq<byte>, q: seq<nat>)
    requires Exact(Deepest(b, p)) && |AddAt(b, p, d)| < U64 && |q| >= 1
    ensures var k := Depth(b, p);
            Lookup(AddAt(b, p, d), q) ==
            if q < p && Lookup(b, q).Some? then Some(AddAt(Lookup(b, q).value, p[|q|..], d))
            else if p[..k + 1] <= q && Lookup(b, p[..k + 1]).None? then Lookup(Nest(p[k..], d), q[k..])
            else Lookup(b, q)
  {
    var k := Depth(b, p);
    SpliceSize(b, p, Nest(p[k..], d));
    SpliceLookup(b, p, Nest(p[k..], d), q);
    if q <= p[..k] {
      SeenEnclosing(b, p, d, q);
    } else if p[..k] <= q {
      SeenBelow(b, p, d, q);
    }
  }

  lemma SeenEnclosing(b: seq<byte>, p: path, d: seq<byte>, q: seq<nat>)
    requires |q| >= 1 && q <= p[..Depth(b, p)]
    ensures q < p && Lookup(b, q).Some?
    ensures Seen(b, p, Nest(p[Depth(b, p)..], d), q) == Some(AddAt(Lookup(b, q).value, p[|q|..], d))
  {
    var k := Depth(b, p);
    assert q == p[..|q|];
    Enclosing(b, p, |q|);
    assert p[|q|..][k - |q|..] == p[k..];
  }

  lemma SeenBelow(b: seq<byte>, p: path, d: seq<byte>, q: seq<nat>)
    requires var k := Depth(b, p); k < |q| && p[..k] <= q && |Nest(p[k..], d)| < U64
    ensures var k := Depth(b, p);
            && !(q < p && Lookup(b, q).Some?)
            && Seen(b, p, Nest(p[k..], d), q) ==
               if p[..k + 1] <= q && Lookup(b, p[..k + 1]).None? then Lookup(Nest(p[k..], d), q[k..])
               else Lookup(b, q)
  {
    var k := Depth(b, p);
    NextPrefix(b, p);
    NextStep(b, p, q);
    PrefixThenEqual(p, q, k);
    if q[k] != p[k] {
      NestOther(p[k..], d, q[k..]);
    }
  }

  lemma NestOther(p: path, d: seq<byte>, q: seq<nat>)
    requires |Nest(p, d)| < U64 && |q| >= 1 && q[0] != p[0]
    ensures Lookup(Nest(p, d), q).None?
  {
    NestParses(p, d);
    var r := Parse(Nest(p, d));
    assert Seek(r.rest, q[0]).None?;
  }

  lemma PrefixThenEqual(p: seq<nat>, q: seq<nat>, k: nat)
    requires k < |p| && k < |q| && p[..k] <= q
    ensures q[k] == p[k] <==> p[..k + 1] <= q
    ensures q[k] == p[k] ==> q[..k + 1] == p[..k + 1]
    ensures q < p ==> q[k] == p[k] && k + 1 < |p|
  {
    assert p[..k + 1] == p[..k] + [p[k]];
    assert q[..k + 1] == q[..k] + [q[k]];
  }

  // ---- the two passes of an embedded add ----

  /** A wider scan finds whatever the narrower one found, at the same place. */
  lemma {:induction false} SeekWider(b: seq<byte>, x: seq<byte>, tag: nat)
    requires Seek(Parse(b), tag).Some?
    ensures Seek(Parse(b + x), tag) == Seek(Parse(b), tag)
    ensures Before(Parse(b + x), tag) == Before(Parse(b), tag)
    ensures After(Parse(b + x), tag) == After(Parse(b), tag) + x
    decreases |b|
  {
    FlatParse(b);
    var v, r := Value(b), Rest(b);
    AttrParts(b);
    AttrReads(Tag(b), v, r + x);
    assert b + x == Header(Tag(b), |v|) + v + (r + x);
    FlatParse(r);
    FlatParse(r + x);
    if Tag(b) != tag {
      SeekWider(r, x, tag);
    }
  }

  /** The unbounded pass never stops before the other one. */
  lemma WideAtLeast(b: seq<byte>, p: path)
    ensures Depth(b, p) <= WideDepth(b, p)
  {
    WideAtLeastIn(b, p, []);
    assert b + [] == b;
  }

  lemma {:induction false} WideAtLeastIn(b: seq<byte>, p: path, x: seq<byte>)
    ensures Depth(b, p) <= WideDepth(b + x, p)
    decreases |p|
  {
    if |p| > 1 && Seek(Parse(b), p[0]).Some? {
      var v, r := Seek(Parse(b), p[0]).value, After(Parse(b), p[0]);
      WideDown(b, p, v, r, x);
      WideAtLeastIn(v, p[1..], r + x);
    }
  }

  /** Beyond the deepest container the unbounded pass goes on into what follows that container. */
  lemma {:induction false} WideContinues(b: seq<byte>, p: path, x: seq<byte>)
    requires Exact(Deepest(b, p))
    ensures WideDepth(b + x, p) == Depth(b, p) +
            if Depth(b, p) + 1 == |p| then 0 else WideDepth(Tail(b, p) + x, p[Depth(b, p)..])
    decreases |p|
  {
    if |p| > 1 {
      match Seek(Parse(b), p[0])
      case None => WideOutside(b, p, x);
      case Some(v) =>
        var r := After(Parse(b), p[0]);
        WideDown(b, p, v, r, x);
        WideContinues(v, p[1..], r + x);
        TailDown(b, p, v, r, x);
    }
  }

  lemma WideDown(b: seq<byte>, p: path, v: seq<byte>, r: seq<byte>, x: seq<byte>)
    requires |p| > 1 && Seek(Parse(b), p[0]) == Some(v) && After(Parse(b), p[0]) == r
    ensures WideDepth(b + x, p) == 1 + WideDepth(v + (r + x), p[1..])
  {
    SeekWider(b, x, p[0]);
  }

  lemma TailDown(b: seq<byte>, p: path, v: seq<byte>, x: seq<byte>, y: seq<byte>)
    requires |p| > 1 && Seek(Parse(b), p[0]) == Some(v) && After(Parse(b), p[0]) == x
    ensures Depth(b, p) == 1 + Depth(v, p[1..])
    ensures p[Depth(b, p)..] == p[1..][Depth(v, p[1..])..]
    ensures Tail(b, p) + y == Tail(v, p[1..]) + (x + y)
  {
    hide Parse, Seek, After;
    var t := Tail(v, p[1..]);
    assert t + x + y == t + (x + y);
  }

  lemma WideOutside(b: seq<byte>, p: path, x: seq<byte>)
    requires |p| > 1 && Exact(b) && Seek(Parse(b), p[0]).None?
    ensures WideDepth(b + x, p) == WideDepth(x, p)
    ensures p[0..] == p && Tail(b, p) + x == x
  {
    ParseAppend(b, x);
    JoinSeek(Parse(b), Parse(x), p[0]);
    JoinAfter(Parse(b), Parse(x), p[0]);
  }

  lemma {:induction r} JoinAfter(r: Run, x: Run, tag: nat)
    requires Seek(r, tag).None?
    ensures After(Join(r, x), tag) == After(x, tag)
  {
  }

  /** The next container is missing, yet its tag occurs among the attributes stored after the place
      where it is to be created. */
  predicate Ambiguous(b: seq<byte>, p: path) {
    var k := Depth(b, p);
    k + 1 < |p| && Seek(Parse(Tail(b, p)), p[k]).Some?
  }

  /** The passes count the same depth exactly when the path is not ambiguous. */
  lemma PassesAgree(b: seq<byte>, p: path)
    requires Exact(Deepest(b, p))
    ensures WideDepth(b, p) == Depth(b, p) <==> !Ambiguous(b, p)
    ensures Depth(b, p) <= WideDepth(b, p)
    ensures Headers(WideDepth(b, p) - Depth(b, p)) <= |Tail(b, p)|
  {
    WideContinues(b, p, []);
    assert b + [] == b && Tail(b, p) + [] == Tail(b, p);
    var k := Depth(b, p);
    if k + 1 < |p| {
      WideRoom(Tail(b, p), p[k..]);
    }
  }

  lemma {:induction false} WideRoom(b: seq<byte>, p: seq<nat>)
    ensures Headers(WideDepth(b, p)) <= |b|
    decreases |p|
  {
    if |p| > 1 && Seek(Parse(b), p[0]).Some? {
      var v, r := Seek(Parse(b), p[0]).value, After(Parse(b), p[0]);
      FlatParse(b);
      PutParts(Parse(b), p[0], v);
      WideRoom(v + r, p[1..]);
    }
  }

  lemma AddExact(b: seq<byte>, p: path, d: seq<byte>)
    requires Exact(b) && |AddAt(b, p, d)| < U64
    ensures Exact(AddAt(b, p, d))
  {
    var q := p[Depth(b, p)..];
    SpliceSize(b, p, Nest(q, d));
    NestParses(q, d);
    SpliceExact(b, p, Nest(q, d));
  }
}
