/** One level of the attribute format: a run of sibling attributes, each a fixed header (tag, length)
    followed by its value.  Nothing in the format says whether a value is itself a run of attributes. */
module Tlv {
  import opened Bytes

  const WORD: nat := 8
  const HDR: nat := 2 * WORD

  /** The space that the key takes in front of the attributes of an object. */
  const KEY_LEN: nat := 256

  function Header(tag: int, len: int): (h: seq<byte>)
    ensures |h| == HDR
  {
    assert Noted(tag) && Noted(len);
    WORDS.write(tag) + WORDS.write(len)
  }

  function Tag(b: seq<byte>): nat
    requires |b| >= HDR
  {
    WORDS.read(b[..WORD])
  }

  function Len(b: seq<byte>): nat
    requires |b| >= HDR
  {
    WORDS.read(b[WORD..HDR])
  }

  /** The bytes at the head of `b` hold one complete attribute. */
  predicate Valid(b: seq<byte>) {
    |b| >= HDR && HDR + Len(b) <= |b|
  }

  function Value(b: seq<byte>): seq<byte>
    requires Valid(b)
  {
    b[HDR..HDR + Len(b)]
  }

  function Rest(b: seq<byte>): seq<byte>
    requires Valid(b)
  {
    b[HDR + Len(b)..]
  }

  /** The attributes of a run, and the bytes behind the last complete one. */
  datatype Run = End(junk: seq<byte>) | Attr(tag: nat, value: seq<byte>, rest: Run)

  /** What a walk over the bytes sees; it stops at the first incomplete attribute. */
  function Parse(b: seq<byte>): Run
    decreases |b|
  {
    if !Valid(b) then End(b) else Attr(Tag(b), Value(b), Parse(Rest(b)))
  }

  function Flat(r: Run): seq<byte> {
    match r
    case End(junk) => junk
    case Attr(tag, v, rest) => Header(tag, |v|) + v + Flat(rest)
  }

  /** Every tag and length fits its word. */
  predicate Storable(r: Run) {
    match r
    case End(junk) => !Valid(junk)
    case Attr(tag, v, rest) => tag < U64 && |v| < U64 && Storable(rest)
  }

  /** The run ends exactly where its last attribute ends. */
  predicate Complete(r: Run) {
    match r
    case End(junk) => junk == []
    case Attr(_, _, rest) => Complete(rest)
  }

  predicate Exact(b: seq<byte>) {
    Complete(Parse(b))
  }

  // ---- reading and changing a run ----

  /** The value of the first attribute carrying `tag`. */
  function Seek(r: Run, tag: nat): Option<seq<byte>> {
    match r
    case End(_) => None
    case Attr(t, v, rest) => if t == tag then Some(v) else Seek(rest, tag)
  }

  /** The bytes stored in front of that attribute, and those behind it. */
  function Before(r: Run, tag: nat): seq<byte> {
    match r
    case End(_) => []
    case Attr(t, v, rest) => if t == tag then [] else Header(t, |v|) + v + Before(rest, tag)
  }

  function After(r: Run, tag: nat): seq<byte> {
    match r
    case End(_) => []
    case Attr(t, _, rest) => if t == tag then Flat(rest) else After(rest, tag)
  }

  /** The offset of that attribute. */
  function FindNext(b: seq<byte>, tag: nat): Option<nat> {
    if Seek(Parse(b), tag).Some? then Some(|Before(Parse(b), tag)|) else None
  }

  /** The run without the first attribute carrying `tag`. */
  function Cut(r: Run, tag: nat): Run {
    match r
    case End(_) => r
    case Attr(t, v, rest) => if t == tag then rest else Attr(t, v, Cut(rest, tag))
  }

  /** The first attribute carrying `tag` gets the value `v`. */
  function Put(r: Run, tag: nat, v: seq<byte>): Run {
    match r
    case End(_) => r
    case Attr(t, w, rest) => if t == tag then Attr(t, v, rest) else Attr(t, w, Put(rest, tag, v))
  }

  function Join(r: Run, x: Run): Run {
    match r
    case End(_) => x
    case Attr(t, v, rest) => Attr(t, v, Join(rest, x))
  }

  /** Every value stored under `tag`, in order. */
  function All(r: Run, tag: nat): seq<seq<byte>> {
    match r
    case End(_) => []
    case Attr(t, v, rest) => (if t == tag then [v] else []) + All(rest, tag)
  }

  /** The run without the attributes whose tag is in `ids`. */
  function Drop(r: Run, ids: set<nat>): Run {
    match r
    case End(_) => r
    case Attr(t, v, rest) => if t in ids then Drop(rest, ids) else Attr(t, v, Drop(rest, ids))
  }

  function Tags(r: Run): set<nat> {
    match r
    case End(_) => {}
    case Attr(t, _, rest) => {t} + Tags(rest)
  }

  /** The tags that some zero-length attribute carries. */
  function EmptyTags(r: Run): set<nat> {
    match r
    case End(_) => {}
    case Attr(t, v, rest) => (if v == [] then {t} else {}) + EmptyTags(rest)
  }

  // ---- one attribute ----

  lemma HeaderReads(tag: nat, len: nat, x: seq<byte>)
    requires tag < U64 && len < U64
    ensures var b := Header(tag, len) + x; Tag(b) == tag && Len(b) == len
  {
    var b := Header(tag, len) + x;
    assert Noted(tag as int) && Noted(len as int);
    assert b[..WORD] == WORDS.write(tag) && b[WORD..HDR] == WORDS.write(len);
  }

  /** An attribute built from its parts reads back as those parts. */
  lemma AttrReads(tag: nat, v: seq<byte>, x: seq<byte>)
    requires tag < U64 && |v| < U64
    ensures var b := Header(tag, |v|) + v + x;
            Valid(b) && Tag(b) == tag && Len(b) == |v| && Value(b) == v && Rest(b) == x
  {
    var b := Header(tag, |v|) + v + x;
    assert b == Header(tag, |v|) + (v + x);
    HeaderReads(tag, |v|, v + x);
  }

  lemma HeaderParts(b: seq<byte>)
    requires |b| >= HDR
    ensures Tag(b) < U64 && Len(b) < U64
    ensures b[..HDR] == Header(Tag(b), Len(b))
  {
    assert Noted(b[..WORD]) && Noted(b[WORD..HDR]);
    assert b[..HDR] == b[..WORD] + b[WORD..HDR];
  }

  /** A complete attribute is its header, its value and what follows. */
  lemma AttrParts(b: seq<byte>)
    requires Valid(b)
    ensures Tag(b) < U64 && |Value(b)| == Len(b) < U64
    ensures b == Header(Tag(b), Len(b)) + Value(b) + Rest(b)
  {
    HeaderParts(b);
    var n := HDR + Len(b);
    assert b[..n] == b[..HDR] + b[HDR..n];
    assert b == b[..n] + b[n..];
  }

  // ---- bytes and runs correspond ----

  lemma {:induction false} ParseFlat(r: Run)
    requires Storable(r)
    ensures Parse(Flat(r)) == r
  {
    if r.Attr? {
      AttrReads(r.tag, r.value, Flat(r.rest));
      ParseFlat(r.rest);
    }
  }

  lemma {:induction false} FlatParse(b: seq<byte>)
    ensures Flat(Parse(b)) == b && Storable(Parse(b))
    decreases |b|
  {
    if Valid(b) {
      AttrParts(b);
      FlatParse(Rest(b));
    }
  }

  lemma {:induction false} FlatJoin(r: Run, x: Run)
    requires Complete(r)
    ensures Flat(Join(r, x)) == Flat(r) + Flat(x)
  {
    if r.Attr? {
      FlatJoin(r.rest, x);
      var a := Header(r.tag, |r.value|) + r.value;
      assert a + (Flat(r.rest) + Flat(x)) == (a + Flat(r.rest)) + Flat(x);
    } else {
      assert [] + Flat(x) == Flat(x);
    }
  }

  lemma {:induction false} JoinStorable(r: Run, x: Run)
    requires Storable(r) && Storable(x)
    ensures Storable(Join(r, x))
    ensures Complete(Join(r, x)) <==> Complete(x)
  {
    if r.Attr? {
      JoinStorable(r.rest, x);
    }
  }

  /** Appending bytes behind an exact run appends their attributes. */
  lemma ParseAppend(p: seq<byte>, x: seq<byte>)
    requires Exact(p)
    ensures Parse(p + x) == Join(Parse(p), Parse(x))
  {
    FlatParse(p);
    FlatParse(x);
    FlatJoin(Parse(p), Parse(x));
    JoinStorable(Parse(p), Parse(x));
    ParseFlat(Join(Parse(p), Parse(x)));
  }

  /** A hit cuts the bytes of a run in three, and `Put` exchanges the middle part. */
  lemma {:induction false} PutParts(r: Run, tag: nat, w: seq<byte>)
    requires Storable(r) && Seek(r, tag).Some?
    ensures var v := Seek(r, tag).value;
            && tag < U64 && |v| < U64
            && Flat(r) == Before(r, tag) + (Header(tag, |v|) + v) + After(r, tag)
            && Flat(Put(r, tag, w)) == Before(r, tag) + (Header(tag, |w|) + w) + After(r, tag)
            && (|w| < U64 ==> Storable(Put(r, tag, w)))
  {
    if r.tag == tag {
      Regroup([], [], Header(tag, |r.value|) + r.value, Flat(r.rest));
      Regroup([], [], Header(tag, |w|) + w, Flat(r.rest));
    } else {
      PutParts(r.rest, tag, w);
      var v := Seek(r, tag).value;
      var a, l, x := Header(r.tag, |r.value|) + r.value, Before(r.rest, tag), After(r.rest, tag);
      Regroup(a, l, Header(tag, |v|) + v, x);
      Regroup(a, l, Header(tag, |w|) + w, x);
    }
  }

  lemma Regroup(a: seq<byte>, b: seq<byte>, c: seq<byte>, d: seq<byte>)
    ensures a + (b + c + d) == (a + b) + c + d
    ensures [] + a == a
  {
  }

  lemma {:induction r} PutSeek(r: Run, tag: nat, w: seq<byte>, x: nat)
    requires Seek(r, tag).Some?
    ensures Seek(Put(r, tag, w), x) == if x == tag then Some(w) else Seek(r, x)
    ensures Complete(Put(r, tag, w)) == Complete(r)
  {
  }

  lemma {:induction r} JoinSeek(r: Run, x: Run, tag: nat)
    ensures Seek(Join(r, x), tag) == if Seek(r, tag).Some? then Seek(r, tag) else Seek(x, tag)
  {
  }

  /** The bytes around a hit. */
  lemma FindParts(b: seq<byte>, tag: nat)
    requires FindNext(b, tag).Some?
    ensures var o, v, x := FindNext(b, tag).value, Seek(Parse(b), tag).value, After(Parse(b), tag);
            && tag < U64 && |v| < U64 && o + HDR + |v| + |x| == |b|
            && b[..o] == Before(Parse(b), tag)
            && b[o..o + HDR] == Header(tag, |v|)
            && b[o + HDR..o + HDR + |v|] == v
            && b[o + HDR + |v|..] == x
  {
    var l, v, x := Before(Parse(b), tag), Seek(Parse(b), tag).value, After(Parse(b), tag);
    hide Parse, Flat, Put, Before, After, Seek, Header;
    FlatParse(b);
    PutParts(Parse(b), tag, v);
    FourParts(l, Header(tag, |v|), v, x);
  }

  lemma FourParts(l: seq<byte>, h: seq<byte>, v: seq<byte>, x: seq<byte>)
    ensures var b, o, e := l + (h + v) + x, |l| + |h|, |l| + |h| + |v|;
            b[..|l|] == l && b[|l|..o] == h && b[o..e] == v && b[e..] == x
  {
    var b, o, e := l + (h + v) + x, |l| + |h|, |l| + |h| + |v|;
    assert b == l + h + v + x;
    assert b[..e] == l + h + v && b[..o] == b[..e][..o] == l + h;
  }

  /** The bytes of the run after the value of the hit was exchanged for `w`. */
  lemma PutAt(b: seq<byte>, tag: nat, w: seq<byte>)
    requires FindNext(b, tag).Some?
    ensures var o, v := FindNext(b, tag).value, Seek(Parse(b), tag).value;
            && o + HDR + |v| <= |b|
            && Flat(Put(Parse(b), tag, w)) == b[..o] + (Header(tag, |w|) + w) + b[o + HDR + |v|..]
  {
    FlatParse(b);
    PutParts(Parse(b), tag, w);
    FindParts(b, tag);
  }

  lemma {:induction false} CutParts(r: Run, tag: nat)
    requires Storable(r) && Seek(r, tag).Some?
    ensures Flat(Cut(r, tag)) == Before(r, tag) + After(r, tag)
    ensures Storable(Cut(r, tag)) && (Complete(Cut(r, tag)) <==> Complete(r))
    ensures Drop(Cut(r, tag), {tag}) == Drop(r, {tag})
  {
    if r.tag != tag {
      CutParts(r.rest, tag);
      var a, l, x := Header(r.tag, |r.value|) + r.value, Before(r.rest, tag), After(r.rest, tag);
      assert a + (l + x) == (a + l) + x;
    }
  }

  lemma {:induction r} DropAbsent(r: Run, tag: nat)
    ensures Seek(r, tag).None? ==> Drop(r, {tag}) == r
    ensures Seek(r, tag).Some? <==> tag in Tags(r)
  {
  }

  lemma {:induction r} DropStorable(r: Run, ids: set<nat>)
    requires Storable(r)
    ensures Storable(Drop(r, ids)) && (Complete(Drop(r, ids)) <==> Complete(r))
  {
  }

  lemma {:induction r} DropDrop(r: Run, a: set<nat>, b: set<nat>)
    ensures Drop(Drop(r, a), b) == Drop(r, a + b)
  {
  }

  lemma ParseDrop(b: seq<byte>, ids: set<nat>)
    ensures Parse(Flat(Drop(Parse(b), ids))) == Drop(Parse(b), ids)
  {
    FlatParse(b);
    DropStorable(Parse(b), ids);
    ParseFlat(Drop(Parse(b), ids));
  }
}
