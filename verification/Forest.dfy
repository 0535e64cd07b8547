/** The attribute trees an application builds, and what adding at a path does to them. */
module Forest {
  import opened Bytes
  import opened Tlv
  import opened TlvPath

  /** Siblings in order: a leaf holds bytes, a box holds attributes. */
  datatype Forest =
    | Nil
    | Leaf(tag: nat, data: seq<byte>, next: Forest)
    | Box(tag: nat, kids: Forest, next: Forest)

  function ToRun(f: Forest): Run {
    match f
    case Nil => End([])
    case Leaf(t, d, next) => Attr(t, d, ToRun(next))
    case Box(t, kids, next) => Attr(t, Flat(ToRun(kids)), ToRun(next))
  }

  function Encode(f: Forest): seq<byte> {
    Flat(ToRun(f))
  }

  /** Every tag and every encoded size fits its word. */
  predicate Fits(f: Forest) {
    match f
    case Nil => true
    case Leaf(t, d, next) => t < U64 && |d| < U64 && Fits(next)
    case Box(t, kids, next) => t < U64 && |Encode(kids)| < U64 && Fits(kids) && Fits(next)
  }

  function Append(f: Forest, g: Forest): Forest {
    match f
    case Nil => g
    case Leaf(t, d, next) => Leaf(t, d, Append(next, g))
    case Box(t, kids, next) => Box(t, kids, Append(next, g))
  }

  predicate Has(f: Forest, tag: nat) {
    f != Nil && (f.tag == tag || Has(f.next, tag))
  }

  /** A chain of fresh boxes around one leaf. */
  function Chain(p: seq<nat>, d: seq<byte>): Forest
    requires |p| >= 1
    decreases |p|
  {
    if |p| == 1 then Leaf(p[0], d, Nil) else Box(p[0], Chain(p[1..], d), Nil)
  }

  /** The leaf goes behind everything in the deepest box of the path that exists; boxes that do not
      exist are made around it.  Every other node keeps its place and its content. */
  function AddTree(f: Forest, p: seq<nat>, d: seq<byte>): Forest
    requires |p| >= 1
    decreases |p|, f, 1
  {
    if |p| == 1 || !Has(f, p[0]) then Append(f, Chain(p, d)) else AddBelow(f, p, d)
  }

  function AddBelow(f: Forest, p: seq<nat>, d: seq<byte>): Forest
    requires |p| > 1
    decreases |p|, f, 0
  {
    match f
    case Nil => Nil
    case Leaf(t, x, next) => Leaf(t, x, AddBelow(next, p, d))
    case Box(t, kids, next) =>
      if t == p[0] then Box(t, AddTree(kids, p[1..], d), next) else Box(t, kids, AddBelow(next, p, d))
  }

  /** The path meets boxes only: no leaf stands where a container is looked for. */
  predicate Open(f: Forest, p: seq<nat>)
    decreases |p|, f
  {
    |p| > 1 ==>
      match f
      case Nil => true
      case Leaf(t, _, next) => t != p[0] && Open(next, p)
      case Box(t, kids, next) => if t == p[0] then Open(kids, p[1..]) else Open(next, p)
  }

  /** Some box of the path is missing although an attribute with its tag stands to the right of one of the
      boxes that enclose the place where it belongs; `right` holds everything to the right of `f`. */
  predicate Shadowed(f: Forest, p: seq<nat>, right: Forest)
    decreases |p|, f
  {
    |p| > 1 &&
    match f
    case Nil => Has(right, p[0])
    case Leaf(_, _, next) => Shadowed(next, p, right)
    case Box(t, kids, next) =>
      if t == p[0] then Shadowed(kids, p[1..], Append(next, right)) else Shadowed(next, p, right)
  }

  // ---- encoding ----

  lemma {:induction f} RunStorable(f: Forest)
    requires Fits(f)
    ensures Storable(ToRun(f)) && Complete(ToRun(f))
  {
    assert !Valid([]);
  }

  lemma ParseEncode(f: Forest)
    requires Fits(f)
    ensures Parse(Encode(f)) == ToRun(f) && Exact(Encode(f))
  {
    RunStorable(f);
    ParseFlat(ToRun(f));
  }

  lemma {:induction f} AppendFits(f: Forest, g: Forest)
    requires Fits(f) && Fits(g)
    ensures Fits(Append(f, g))
  {
  }

  lemma AppendEncode(f: Forest, g: Forest)
    requires Fits(f)
    ensures Encode(Append(f, g)) == Encode(f) + Encode(g)
  {
    RunStorable(f);
    AppendJoin(f, g);
    FlatJoin(ToRun(f), ToRun(g));
  }

  lemma {:induction f} AppendJoin(f: Forest, g: Forest)
    ensures ToRun(Append(f, g)) == Join(ToRun(f), ToRun(g))
  {
  }

  lemma {:induction f} HasSeek(f: Forest, tag: nat)
    ensures Has(f, tag) <==> Seek(ToRun(f), tag).Some?
  {
  }

  lemma {:induction false} ChainNest(p: path, d: seq<byte>)
    ensures Encode(Chain(p, d)) == Nest(p, d)
    decreases |p|
  {
    var v := if |p| == 1 then d else Nest(p[1..], d);
    if |p| > 1 {
      ChainNest(p[1..], d);
    }
    assert ToRun(Chain(p, d)) == Attr(p[0], v, End([]));
    var h := Header(p[0], |v|) + v;
    assert Flat(End([])) == [];
    assert Encode(Chain(p, d)) == h + [] == h;
  }

  /** The box the path enters first, and its right siblings. */
  lemma {:induction false} EnterBox(f: Forest, p: path, d: seq<byte>, right: Forest)
    returns (kids: Forest, next: Forest)
    requires |p| > 1 && Fits(f) && Has(f, p[0]) && Open(f, p)
    ensures Fits(kids) && Fits(next) && Open(kids, p[1..])
    ensures Seek(ToRun(f), p[0]) == Some(Encode(kids)) && After(ToRun(f), p[0]) == Encode(next)
    ensures ToRun(AddBelow(f, p, d)) == Put(ToRun(f), p[0], Encode(AddTree(kids, p[1..], d)))
    ensures Shadowed(f, p, right) <==> Shadowed(kids, p[1..], Append(next, right))
  {
    match f
    case Leaf(t, _, n) => kids, next := EnterBox(n, p, d, right);
    case Box(t, k, n) =>
      if t == p[0] { kids, next := k, n; } else { kids, next := EnterBox(n, p, d, right); }
  }

  /** What the byte-level edit does to an encoded tree is the encoding of the tree edit. */
  lemma {:induction false} AddRefinesTree(f: Forest, p: path, d: seq<byte>)
    requires Fits(f) && Open(f, p)
    ensures AddAt(Encode(f), p, d) == Encode(AddTree(f, p, d))
    ensures Exact(Deepest(Encode(f), p))
    decreases |p|
  {
    ParseEncode(f);
    HasSeek(f, p[0]);
    if |p| == 1 || !Has(f, p[0]) {
      AppendEncode(f, Chain(p, d));
      ChainNest(p, d);
      assert p[0..] == p;
    } else {
      var kids, _ := EnterBox(f, p, d, Nil);
      AddRefinesTree(kids, p[1..], d);
      assert p[Depth(Encode(f), p)..] == p[1..][Depth(Encode(kids), p[1..])..];
    }
  }

  lemma {:induction false} NothingShadows(f: Forest, p: seq<nat>, right: Forest)
    requires |p| > 1 && !Has(f, p[0])
    ensures Shadowed(f, p, right) <==> Has(right, p[0])
  {
    if f != Nil {
      NothingShadows(f.next, p, right);
    }
  }

  /** On an encoded tree, a path is ambiguous exactly when a right sibling of an enclosing box shadows it. */
  lemma {:induction false} TailShadows(f: Forest, p: path, right: Forest)
    requires Fits(f) && Fits(right) && Open(f, p)
    ensures var k := Depth(Encode(f), p);
            Shadowed(f, p, right) <==>
            k + 1 < |p| && Seek(Parse(Tail(Encode(f), p) + Encode(right)), p[k]).Some?
    decreases |p|
  {
    ParseEncode(f);
    ParseEncode(right);
    HasSeek(f, p[0]);
    if |p| > 1 {
      if !Has(f, p[0]) {
        NothingShadows(f, p, right);
        HasSeek(right, p[0]);
        assert [] + Encode(right) == Encode(right);
      } else {
        var kids, next := EnterBox(f, p, [], right);
        AppendFits(next, right);
        AppendEncode(next, right);
        TailShadows(kids, p[1..], Append(next, right));
        var x, y := Encode(next), Encode(right);
        TailDown(Encode(f), p, Encode(kids), x, y);
      }
    }
  }

  /** The two passes of the embedded add agree on a tree exactly when no right sibling shadows the path. */
  lemma PassesAgreeOnTrees(f: Forest, p: path)
    requires Fits(f) && Open(f, p)
    ensures WideDepth(Encode(f), p) == Depth(Encode(f), p) <==> !Shadowed(f, p, Nil)
  {
    AddRefinesTree(f, p, []);
    PassesAgree(Encode(f), p);
    TailShadows(f, p, Nil);
    assert Tail(Encode(f), p) + Encode(Nil) == Tail(Encode(f), p);
  }

  /** Two empty boxes side by side, and a leaf wanted in a box of the second one's tag inside the first: the
      first pass takes the neighbour for the missing box, and too little room is made. */
  lemma ShadowedExample(a: nat, b: nat, c: nat)
    requires a < U64 && b < U64 && c < U64 && a != b
    ensures var f, p := Box(a, Nil, Box(b, Nil, Nil)), [a, b, c];
            Fits(f) && Open(f, p) && WideDepth(Encode(f), p) != Depth(Encode(f), p)
  {
    var f, p: path := Box(a, Nil, Box(b, Nil, Nil)), [a, b, c];
    assert Encode(Nil) == [];
    assert p[1..] == [b, c];
    assert Open(Nil, [b, c]);
    assert Shadowed(Nil, [b, c], Append(Box(b, Nil, Nil), Nil));
    PassesAgreeOnTrees(f, p);
  }
}
