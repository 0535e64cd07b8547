/** Bulk operations on a database connection: a window of requests is sent before the first of their replies is
    read.  Replies come back in the order of the requests and carry nothing that says which request they answer. */
module Pipeline {
  import opened Bytes
  import opened Merge

  type key = seq<byte>

  datatype Obj = Obj(key: seq<byte>, attrs: seq<byte>)

  /** `Unusable` is a reply that is too short to hold an object. */
  datatype Reply = Status | Nil | Object(o: Obj) | Unusable

  // ---- splitting a range ----

  /** The end of the range that starts at `ix`.  A negative step wraps around to a large one. */
  function SplitNext(ix: nat, total: nat, step: int): (next: nat)
    requires ix <= total
    ensures next <= total
  {
    var n := (ix + step) % U64;
    if n > total then total else n
  }

  lemma SplitAdvances(ix: nat, total: nat, step: int)
    requires ix < total <= U64 / 2 && -(U64 / 2) <= step < U64 / 2
    ensures step >= 1 ==> SplitNext(ix, total, step) == if ix + step <= total then ix + step else total
    ensures step == 0 ==> SplitNext(ix, total, step) == ix
    ensures step < 0 && ix == 0 ==> SplitNext(ix, total, step) == total
  {
  }

  /** The ranges, in order, follow on from each other between `from` and `to`. */
  ghost predicate Tiles(ranges: seq<(nat, nat)>, from: nat, to: nat) {
    if ranges == [] then from == to
    else ranges[0].0 == from < ranges[0].1 && Tiles(ranges[1..], ranges[0].1, to)
  }

  lemma {:induction false} TilesAppend(ranges: seq<(nat, nat)>, from: nat, mid: nat, to: nat)
    requires Tiles(ranges, from, mid) && mid < to
    ensures Tiles(ranges + [(mid, to)], from, to)
  {
    if ranges != [] {
      TilesAppend(ranges[1..], ranges[0].1, mid, to);
      assert (ranges + [(mid, to)])[1..] == ranges[1..] + [(mid, to)];
    } else {
      assert ([] + [(mid, to)])[1..] == [];
    }
  }

  /** The range is tiled, by pieces no longer than the step; with a negative step there is one piece.  A step of zero
      would never get past the first element. */
  method RangeSplit(total: nat, step: int) returns (ranges: seq<(nat, nat)>)
    requires total <= U64 / 2 && -(U64 / 2) <= step < U64 / 2
    requires step == 0 ==> total == 0
    ensures Tiles(ranges, 0, total)
    ensures step >= 1 ==> forall r <- ranges :: r.1 - r.0 <= step
    ensures step < 0 ==> |ranges| <= 1
  {
    ranges := [];
    var ix := 0;
    while ix < total
      invariant ix <= total && Tiles(ranges, 0, ix)
      invariant step >= 1 ==> forall r <- ranges :: r.1 - r.0 <= step
      invariant step < 0 ==> if ix == 0 then ranges == [] else ix == total && |ranges| == 1
      decreases total - ix
    {
      SplitAdvances(ix, total, step);
      var now := ix;
      ix := SplitNext(ix, total, step);
      TilesAppend(ranges, 0, now, ix);
      ranges := ranges + [(now, ix)];
    }
  }

  // ---- the connection ----

  function Fetch(db: map<key, Reply>, k: key): Reply {
    if k in db then db[k] else Nil
  }

  /** A connection to a database, which is taken as it is once the requests sent so far are carried out.  The
      connection may break at any time; it is then opened anew, and the replies that were outstanding are lost.
      `lost` says that this happened, or that a request could not be sent, and `peak` is the largest number of
      outstanding replies so far. */
  class Connection {
    var db: map<key, Reply>
    var pending: seq<Reply>
    ghost var lost: bool
    ghost var peak: nat

    method Request(reply: Reply) returns (ok: bool)
      modifies this`pending, this`lost, this`peak
      ensures old(lost) ==> lost
      ensures ok ==> pending == old(pending) + [reply] || (lost && pending == [reply] && old(pending) != [])
      ensures !lost ==> ok && pending == old(pending) + [reply]
      ensures ok && lost && !old(lost) ==> pending == [reply] && old(pending) != []
      ensures !ok ==> pending == []
      ensures peak == Max(old(peak), |pending|)
    {
      var broken: bool := *;
      ok := *;
      if broken || !ok {
        lost := lost || pending != [] || !ok;
        pending := [];
      }
      if ok {
        pending := pending + [reply];
      }
      peak := Max(peak, |pending|);
    }

    method Response() returns (r: Option<Reply>)
      modifies this`pending, this`lost
      ensures old(lost) ==> lost
      ensures r.None? ==> lost && pending == []
      ensures r.Some? ==> old(pending) != [] && r.value == old(pending)[0] && pending == old(pending)[1..]
      ensures r.Some? ==> lost == old(lost)
    {
      var broken: bool := *;
      if broken || pending == [] {
        pending, lost := [], true;
        return None;
      }
      r := Some(pending[0]);
      pending := pending[1..];
    }
  }

  function Max(a: nat, b: nat): nat {
    if a < b then b else a
  }

  // ---- requests ----

  type naming = Obj -> Option<key>

  /** The objects in front of the first that has no key of its own. */
  function Keyed(name: naming, os: seq<Obj>): (p: seq<Obj>)
    ensures p <= os
  {
    if os == [] || name(os[0]).None? then [] else [os[0]] + Keyed(name, os[1..])
  }

  function Replies(name: naming, db: map<key, Reply>, os: seq<Obj>): (r: seq<Reply>)
    ensures |r| == |os|
  {
    if os == [] then [] else [ReplyTo(name, db, os[0])] + Replies(name, db, os[1..])
  }

  function ReplyTo(name: naming, db: map<key, Reply>, o: Obj): Reply {
    if name(o).Some? then Fetch(db, name(o).value) else Nil
  }

  lemma KeyedPrefix(name: naming, os: seq<Obj>, i: nat)
    requires i < |os| && Keyed(name, os[..i]) == os[..i]
    ensures name(os[i]).Some? ==> Keyed(name, os[..i + 1]) == os[..i + 1]
    ensures name(os[i]).None? ==> Keyed(name, os) == os[..i]
  {
    hide Keyed;
    if name(os[i]).Some? {
      KeyedOne(name, os[..i], os[i]);
      assert os[..i + 1] == os[..i] + [os[i]];
    } else {
      KeyedStop(name, os[..i], os[i..]);
      assert os == os[..i] + os[i..];
    }
  }

  lemma KeyedOne(name: naming, p: seq<Obj>, o: Obj)
    requires Keyed(name, p) == p && name(o).Some?
    ensures Keyed(name, p + [o]) == p + [o]
  {
    KeyedSplit(name, p, [o]);
    assert [o][1..] == [];
  }

  lemma KeyedStop(name: naming, p: seq<Obj>, rest: seq<Obj>)
    requires Keyed(name, p) == p && rest != [] && name(rest[0]).None?
    ensures Keyed(name, p + rest) == p
  {
    KeyedSplit(name, p, rest);
    assert p + [] == p;
  }

  lemma {:induction false} KeyedSplit(name: naming, a: seq<Obj>, b: seq<Obj>)
    ensures Keyed(name, a + b) == if Keyed(name, a) == a then a + Keyed(name, b) else Keyed(name, a)
  {
    if a == [] {
      assert [] + b == b && [] + Keyed(name, b) == Keyed(name, b);
    } else if name(a[0]).Some? {
      var t, x, y := a[1..], Keyed(name, a[1..]), Keyed(name, b);
      KeyedSplit(name, t, b);
      assert (a + b)[1..] == t + b;
      OneInFront(a[0], t, x, y);
    }
  }

  lemma OneInFront(o: Obj, t: seq<Obj>, x: seq<Obj>, y: seq<Obj>)
    ensures [o] + x == [o] + t <==> x == t
    ensures [o] + (t + y) == [o] + t + y
  {
    assert ([o] + x)[1..] == x && ([o] + t)[1..] == t;
  }

  /** Both parts of a list have keys throughout, or not. */
  lemma KeyedParts(name: naming, a: seq<Obj>, b: seq<Obj>)
    ensures Keyed(name, a + b) == a + b <==> Keyed(name, a) == a && Keyed(name, b) == b
  {
    hide Keyed;
    KeyedSplit(name, a, b);
    assert (a + Keyed(name, b))[|a|..] == Keyed(name, b) && (a + b)[|a|..] == b;
    assert |Keyed(name, a)| < |a| || Keyed(name, a) == a;
  }

  lemma {:induction false} RepliesSplit(name: naming, db: map<key, Reply>, a: seq<Obj>, b: seq<Obj>)
    ensures Replies(name, db, a + b) == Replies(name, db, a) + Replies(name, db, b)
  {
    hide ReplyTo;
    if a == [] {
      assert [] + b == b;
    } else {
      assert (a + b)[1..] == a[1..] + b;
      RepliesSplit(name, db, a[1..], b);
    }
  }

  lemma RepliesAppend(name: naming, db: map<key, Reply>, os: seq<Obj>, i: nat)
    requires i < |os|
    ensures Replies(name, db, os[..i + 1]) == Replies(name, db, os[..i]) + [ReplyTo(name, db, os[i])]
  {
    assert os[..i + 1] == os[..i] + [os[i]];
    RepliesSplit(name, db, os[..i], [os[i]]);
    assert [os[i]][1..] == [];
  }

  lemma {:induction false} RepliesAt(name: naming, db: map<key, Reply>, os: seq<Obj>, i: nat)
    requires i < |os|
    ensures Replies(name, db, os)[i] == ReplyTo(name, db, os[i])
  {
    if i > 0 {
      RepliesAt(name, db, os[1..], i - 1);
    }
  }

  /** What is in the connection once a window of requests is sent behind the replies `s`. */
  function Queue(name: naming, db: map<key, Reply>, s: seq<Reply>, os: seq<Obj>): (q: seq<Reply>)
    ensures |q| == |s| + |os|
  {
    s + Replies(name, db, os)
  }

  /** The requests of one window.  It stops at an object without a key.  If the connection broke on the way, the first
      `cut` replies are missing. */
  method SendGets(conn: Connection, name: naming, os: seq<Obj>) returns (ok: bool, ghost cut: nat)
    modifies conn`pending, conn`lost, conn`peak
    ensures old(conn.lost) ==> conn.lost
    ensures conn.peak <= Max(old(conn.peak), |old(conn.pending)| + |os|)
    ensures |conn.pending| <= |old(conn.pending)| + |os|
    ensures ok ==>
              && Keyed(name, os) == os && cut <= |old(conn.pending)| + |os|
              && conn.pending == Queue(name, conn.db, old(conn.pending), os)[cut..]
              && (conn.lost <==> old(conn.lost) || cut > 0)
    ensures !conn.lost ==>
              && ok == (Keyed(name, os) == os)
              && conn.pending == Queue(name, conn.db, old(conn.pending), Keyed(name, os))
  {
    hide Keyed, Replies;
    var ix := 0;
    cut := 0;
    ghost var s := conn.pending;
    NothingAsked(name, conn.db, os, s);
    while ix < |os|
      invariant ix <= |os| && Keyed(name, os[..ix]) == os[..ix]
      invariant cut <= |s| + ix && conn.pending == Queue(name, conn.db, s, os[..ix])[cut..]
      invariant conn.lost <==> old(conn.lost) || cut > 0
      invariant conn.peak <= Max(old(conn.peak), |s| + ix)
    {
      KeyedPrefix(name, os, ix);
      var k := name(os[ix]);
      if k.None? { return false, cut; }
      RepliesAppend(name, conn.db, os, ix);
      ghost var was := conn.pending;
      ghost var reply := Fetch(conn.db, k.value);
      OneMore(Queue(name, conn.db, s, os[..ix]), reply, cut);
      Grouped(s, Replies(name, conn.db, os[..ix]), [reply]);
      ok := conn.Request(Fetch(conn.db, k.value));
      if !ok { return false, cut; }
      if conn.pending != was + [reply] {
        cut := |s| + ix;
      }
      ix := ix + 1;
    }
    assert os[..ix] == os;
    return true, cut;
  }

  lemma NothingAsked(name: naming, db: map<key, Reply>, os: seq<Obj>, s: seq<Reply>)
    ensures Keyed(name, os[..0]) == os[..0] && Queue(name, db, s, os[..0])[0..] == s
  {
  }

  lemma OneMore(q: seq<Reply>, r: Reply, cut: nat)
    requires cut <= |q|
    ensures (q + [r])[cut..] == q[cut..] + [r] && (q + [r])[|q|..] == [r]
  {
  }

  lemma Grouped(a: seq<Reply>, b: seq<Reply>, c: seq<Reply>)
    ensures a + (b + c) == a + b + c
  {
  }

  // ---- merging stored objects into a list ----

  /** The stored object with the given attributes merged into it. */
  function Combine(stored: Obj, given: Obj): Obj {
    Obj(stored.key, Merged(stored.attrs, given.attrs, true))
  }

  /** How many of the first replies are objects. */
  function Good(q: seq<Reply>): (n: nat)
    ensures n <= |q|
  {
    if q == [] || !q[0].Object? then 0 else 1 + Good(q[1..])
  }

  lemma {:induction false} GoodAt(q: seq<Reply>)
    ensures AllObjects(q, Good(q))
    ensures Good(q) < |q| ==> !q[Good(q)].Object?
  {
    if q != [] && q[0].Object? {
      GoodAt(q[1..]);
      assert forall i | 1 <= i < |q| :: q[i] == q[1..][i - 1];
    }
  }

  lemma GoodIs(q: seq<Reply>, n: nat)
    requires AllObjects(q, n) && (n < |q| ==> !q[n].Object?)
    ensures Good(q) == n
  {
    GoodAt(q);
  }

  predicate AllObjects(q: seq<Reply>, n: nat) {
    n <= |q| && forall i | 0 <= i < n :: q[i].Object?
  }

  /** The list with its first `n` objects merged, each with the reply at its position. */
  function Mix(os: seq<Obj>, q: seq<Reply>, n: nat): (m: seq<Obj>)
    requires n <= |os| && AllObjects(q, n)
    ensures |m| == |os|
  {
    if n == 0 then os else Mix(os, q, n - 1)[n - 1 := Combine(q[n - 1].o, os[n - 1])]
  }

  lemma {:induction false} MixAt(os: seq<Obj>, q: seq<Reply>, n: nat, i: nat)
    requires n <= |os| && AllObjects(q, n) && i < |os|
    ensures i < n ==> q[i].Object?
    ensures Mix(os, q, n)[i] == if i < n then Combine(q[i].o, os[i]) else os[i]
  {
    if n > 0 {
      MixAt(os, q, n - 1, i);
    }
  }

  /** Success or failure, the list, and the replies left outstanding. */
  datatype Outcome = Outcome(ok: bool, objs: seq<Obj>, left: seq<Reply>)

  /** One window, behind the replies `s`: no reply is read unless each object has a key, and none is read behind the
      first that is not an object. */
  function MergeWindow(name: naming, db: map<key, Reply>, os: seq<Obj>, s: seq<Reply>): Outcome {
    if Keyed(name, os) != os then Outcome(false, os, Queue(name, db, s, Keyed(name, os)))
    else
      var q := Queue(name, db, s, os);
      var n := Good(q[..|os|]);
      GoodAt(q[..|os|]);
      AllInFront(q, |os|, n);
      Outcome(n == |os|, Mix(os, q, n), q[if n == |os| then n else n + 1..])
  }

  function MergeBulk(name: naming, db: map<key, Reply>, os: seq<Obj>, step: nat, s: seq<Reply>): Outcome
    requires step >= 1
    decreases |os|
  {
    if os == [] then Outcome(true, [], s)
    else
      var n := if step < |os| then step else |os|;
      var w := MergeWindow(name, db, os[..n], s);
      if !w.ok then w.(objs := w.objs + os[n..])
      else
        var rest := MergeBulk(name, db, os[n..], step, w.left);
        rest.(objs := w.objs + rest.objs)
  }

  method MergeChunk(conn: Connection, name: naming, os: seq<Obj>) returns (ok: bool, objs: seq<Obj>)
    modifies conn`pending, conn`lost, conn`peak
    ensures old(conn.lost) ==> conn.lost
    ensures conn.peak <= Max(old(conn.peak), |old(conn.pending)| + |os|)
    ensures |conn.pending| <= |old(conn.pending)| + if ok then 0 else |os|
    ensures ok && old(conn.pending) == [] && !old(conn.lost) ==> !conn.lost
    ensures !conn.lost ==> MergeWindow(name, conn.db, os, old(conn.pending)) == Outcome(ok, objs, conn.pending)
  {
    hide Keyed, Queue, MergeWindow, Mix, AllObjects;
    objs := os;
    ghost var s := conn.pending;
    ghost var cut;
    ok, cut := SendGets(conn, name, os);
    if !ok {
      if !conn.lost {
        MergeUnread(name, conn.db, os, s);
      }
      return;
    }
    ghost var q := Queue(name, conn.db, s, os);
    var ix := 0;
    MixNext(os, q, 0);
    while ix < |os|
      invariant ix <= |os| == |objs| && cut <= |q| && cut + ix <= |q| && conn.pending == q[cut + ix..]
      invariant conn.peak <= Max(old(conn.peak), |s| + |os|)
      invariant conn.lost <==> old(conn.lost) || cut > 0
      invariant cut == 0 ==> AllObjects(q, ix) && objs == Mix(os, q, ix)
    {
      Popped(q, cut + ix);
      var r := conn.Response();
      if r.None? || !r.value.Object? {
        if cut == 0 && r.Some? {
          MergeRead(name, conn.db, os, s, ix);
        }
        return false, objs;
      }
      if cut == 0 {
        MixNext(os, q, ix);
      }
      objs := objs[ix := Combine(r.value.o, objs[ix])];
      ix := ix + 1;
    }
    if cut == 0 {
      MergeRead(name, conn.db, os, s, ix);
    }
  }

  lemma Popped(q: seq<Reply>, i: nat)
    requires i <= |q|
    ensures q[i..] == [] <==> i == |q|
    ensures i < |q| ==> q[i..][0] == q[i] && q[i..][1..] == q[i + 1..]
  {
  }

  lemma MixNext(os: seq<Obj>, q: seq<Reply>, n: nat)
    ensures AllObjects(q, 0) && Mix(os, q, 0) == os
    ensures AllObjects(q, n) && n < |os| && n < |q| && q[n].Object? ==>
              && AllObjects(q, n + 1) && Mix(os, q, n)[n] == os[n]
              && Mix(os, q, n + 1) == Mix(os, q, n)[n := Combine(q[n].o, os[n])]
  {
    if AllObjects(q, n) && n < |os| {
      MixAt(os, q, n, n);
    }
  }

  lemma AllInFront(q: seq<Reply>, n: nat, k: nat)
    requires k <= n <= |q|
    ensures AllObjects(q[..n], k) <==> AllObjects(q, k)
  {
    if AllObjects(q[..n], k) {
      assert forall i | 0 <= i < k :: q[i] == q[..n][i];
    }
  }

  lemma MergeUnread(name: naming, db: map<key, Reply>, os: seq<Obj>, s: seq<Reply>)
    requires Keyed(name, os) != os
    ensures MergeWindow(name, db, os, s) == Outcome(false, os, Queue(name, db, s, Keyed(name, os)))
  {
  }

  /** A window of which `ix` replies were objects, and either that is all or the next one was not. */
  lemma MergeRead(name: naming, db: map<key, Reply>, os: seq<Obj>, s: seq<Reply>, ix: nat)
    requires Keyed(name, os) == os && ix <= |os|
    requires var q := Queue(name, db, s, os);
             AllObjects(q, ix) && (ix < |os| ==> !q[ix].Object?)
    ensures var q := Queue(name, db, s, os);
            MergeWindow(name, db, os, s) ==
            Outcome(ix == |os|, Mix(os, q, ix), q[if ix == |os| then ix else ix + 1..])
  {
    hide Keyed, Queue, Mix;
    AllInFront(Queue(name, db, s, os), |os|, ix);
    GoodIs(Queue(name, db, s, os)[..|os|], ix);
  }

  function Behind(p: seq<Obj>, m: Outcome): Outcome {
    m.(objs := p + m.objs)
  }

  /** One window of a merge that has already done the objects `p`. */
  lemma BulkUnfold(name: naming, db: map<key, Reply>, p: seq<Obj>, os: seq<Obj>, n: nat, step: nat, s: seq<Reply>)
    requires step >= 1 && os != [] && n == if step < |os| then step else |os|
    ensures var w := MergeWindow(name, db, os[..n], s);
            Behind(p, MergeBulk(name, db, os, step, s)) ==
            if w.ok then Behind(p + w.objs, MergeBulk(name, db, os[n..], step, w.left))
            else Outcome(false, p + w.objs + os[n..], w.left)
  {
    hide MergeWindow;
    var w := MergeWindow(name, db, os[..n], s);
    var more := MergeBulk(name, db, os[n..], step, w.left);
    assert p + (w.objs + os[n..]) == p + w.objs + os[n..];
    assert p + (w.objs + more.objs) == p + w.objs + more.objs;
  }

  /** Merges the stored objects into a list, window by window, on a connection that may hold stray replies.  Unless
      something is lost, what happens is `MergeBulk`; without strays, success means that nothing was. */
  method MergeObjects(conn: Connection, name: naming, os: seq<Obj>, step: nat) returns (ok: bool, objs: seq<Obj>)
    requires 1 <= step < U64 / 2 && |os| <= U64 / 2
    modifies conn`pending, conn`lost, conn`peak
    ensures conn.peak <= Max(old(conn.peak), |old(conn.pending)| + step)
    ensures ok && old(conn.pending) == [] ==> !conn.lost
    ensures !conn.lost ==>
              MergeBulk(name, conn.db, os, step, old(conn.pending)) == Outcome(ok, objs, conn.pending)
  {
    hide MergeWindow, MergeBulk;
    conn.lost := false;
    var ix := 0;
    ghost var s := conn.pending;
    ghost var all := MergeBulk(name, conn.db, os, step, s);
    objs := [];
    MergeBulkNone(name, conn.db, os, step, s);
    while ix < |os|
      invariant ix <= |os| && |conn.pending| <= |s|
      invariant s == [] ==> !conn.lost
      invariant conn.peak <= Max(old(conn.peak), |s| + step)
      invariant !conn.lost ==> all == Behind(objs, MergeBulk(name, conn.db, os[ix..], step, conn.pending))
    {
      SplitAdvances(ix, |os|, step);
      var mx := SplitNext(ix, |os|, step);
      BulkUnfold(name, conn.db, objs, os[ix..], mx - ix, step, conn.pending);
      assert os[ix..][..mx - ix] == os[ix..mx] && os[ix..][mx - ix..] == os[mx..];
      var done;
      ok, done := MergeChunk(conn, name, os[ix..mx]);
      objs := objs + done;
      if !ok {
        objs := objs + os[mx..];
        return;
      }
      ix := mx;
    }
    ok := true;
    assert os[ix..] == [];
    MergeBulkNone(name, conn.db, [], step, conn.pending);
    assert objs + [] == objs;
  }

  lemma MergeBulkNone(name: naming, db: map<key, Reply>, os: seq<Obj>, step: nat, s: seq<Reply>)
    requires step >= 1
    ensures MergeBulk(name, db, [], step, s) == Outcome(true, [], s)
    ensures MergeBulk(name, db, os, step, s) == Behind([], MergeBulk(name, db, os[0..], step, s))
  {
    hide MergeWindow;
    assert os[0..] == os;
    var m := MergeBulk(name, db, os, step, s).objs;
    assert [] + m == m;
  }

  /** Each object is merged with the reply at its own position. */
  ghost predicate Paired(os: seq<Obj>, q: seq<Reply>, ms: seq<Obj>) {
    |ms| == |os| <= |q| && forall i | 0 <= i < |os| :: q[i].Object? && ms[i] == Combine(q[i].o, os[i])
  }

  lemma {:induction false} WindowPairs(name: naming, db: map<key, Reply>, os: seq<Obj>, s: seq<Reply>)
    ensures var w, q := MergeWindow(name, db, os, s), Queue(name, db, s, os);
            && (w.ok <==> Keyed(name, os) == os && AllObjects(q, |os|))
            && (w.ok ==> Paired(os, q, w.objs) && w.left == q[|os|..])
            && |w.objs| == |os| && (os != [] ==> |w.left| < |s| + |os|)
  {
    hide Queue, Combine, Mix, AllObjects;
    var q := Queue(name, db, s, os);
    var n := Good(q[..|os|]);
    GoodAt(q[..|os|]);
    AllInFront(q, |os|, n);
    if AllObjects(q, |os|) {
      AllInFront(q, |os|, |os|);
      GoodIs(q[..|os|], |os|);
      forall i | 0 <= i < |os| ensures q[i].Object? && Mix(os, q, |os|)[i] == Combine(q[i].o, os[i]) {
        MixAt(os, q, |os|, i);
      }
    }
  }

  /** Two windows, the second behind what the first left. */
  lemma QueueParts(name: naming, db: map<key, Reply>, a: seq<Obj>, b: seq<Obj>, s: seq<Reply>)
    ensures var q, p := Queue(name, db, s, a + b), Queue(name, db, s, a);
            p <= q && Queue(name, db, p[|a|..], b) == q[|a|..]
  {
    hide Replies;
    RepliesSplit(name, db, a, b);
    var x, y := Replies(name, db, a), Replies(name, db, b);
    assert s + (x + y) == s + x + y;
    assert (s + x + y)[|a|..] == (s + x)[|a|..] + y;
  }

  lemma PairedParts(a: seq<Obj>, b: seq<Obj>, p: seq<Reply>, q: seq<Reply>, x: seq<Obj>, y: seq<Obj>)
    requires p <= q && |a| <= |p| && |a| + |b| <= |q|
    ensures AllObjects(q, |a| + |b|) <==> AllObjects(p, |a|) && AllObjects(q[|a|..], |b|)
    ensures Paired(a, p, x) && Paired(b, q[|a|..], y) ==> Paired(a + b, q, x + y)
  {
    hide Combine;
    if AllObjects(p, |a|) && AllObjects(q[|a|..], |b|) {
      forall i | 0 <= i < |a| + |b| ensures q[i].Object? {
        if i >= |a| {
          assert q[i] == q[|a|..][i - |a|];
        }
      }
    }
  }

  /** A bulk merge on a connection that holds the replies `s`: whatever the window, the `i`-th object is merged with
      the `i`-th reply of the queue, which is the reply to the object `|s|` places before it, or a stray; and as
      many replies as there were strays are left. */
  lemma {:induction false} MergeShifted(name: naming, db: map<key, Reply>, os: seq<Obj>, step: nat, s: seq<Reply>)
    requires step >= 1
    ensures var m, q := MergeBulk(name, db, os, step, s), Queue(name, db, s, os);
            && (m.ok <==> Keyed(name, os) == os && AllObjects(q, |os|))
            && (m.ok ==> Paired(os, q, m.objs) && m.left == q[|os|..])
            && |m.objs| == |os| && |m.left| < |s| + step
    decreases |os|
  {
    hide Keyed, Queue, Paired, AllObjects, MergeWindow;
    if os == [] {
      NothingToMerge(name, db, s);
    } else {
      var n := if step < |os| then step else |os|;
      var a, b := os[..n], os[n..];
      assert os == a + b;
      var w := MergeWindow(name, db, a, s);
      WindowPairs(name, db, a, s);
      KeyedParts(name, a, b);
      QueueParts(name, db, a, b, s);
      var p, q := Queue(name, db, s, a), Queue(name, db, s, os);
      var rest := MergeBulk(name, db, b, step, p[n..]);
      PairedParts(a, b, p, q, w.objs, rest.objs);
      MergeShifted(name, db, b, step, p[n..]);
      assert q[n..][|b|..] == q[|os|..];
    }
  }

  lemma NothingToMerge(name: naming, db: map<key, Reply>, s: seq<Reply>)
    ensures Keyed(name, []) == [] && Queue(name, db, s, [])[0..] == s
    ensures AllObjects(Queue(name, db, s, []), 0) && Paired([], Queue(name, db, s, []), [])
  {
  }

  /** An object that a merge can complete, and what it becomes. */
  predicate Mergeable(name: naming, db: map<key, Reply>, o: Obj) {
    name(o).Some? && ReplyTo(name, db, o).Object?
  }

  predicate Completed(name: naming, db: map<key, Reply>, o: Obj, m: Obj) {
    Mergeable(name, db, o) && m == Combine(db[name(o).value].o, o)
  }

  lemma {:induction false} KeyedAll(name: naming, os: seq<Obj>)
    ensures Keyed(name, os) == os <==> forall i | 0 <= i < |os| :: name(os[i]).Some?
  {
    if os != [] {
      KeyedAll(name, os[1..]);
      assert forall i | 1 <= i < |os| :: os[i] == os[1..][i - 1];
      if name(os[0]).Some? {
        OneInFront(os[0], os[1..], Keyed(name, os[1..]), []);
        assert [os[0]] + os[1..] == os;
      }
    }
  }

  /** Whatever the window: a merge on a connection without stray replies succeeds if and only if each object can be
      completed, the `i`-th object is then merged with the record stored under its own key, and no reply is left. */
  lemma BulkMerges(name: naming, db: map<key, Reply>, os: seq<Obj>, step: nat)
    requires step >= 1
    ensures var m := MergeBulk(name, db, os, step, []);
            && (m.ok <==> forall i | 0 <= i < |os| :: Mergeable(name, db, os[i]))
            && |m.objs| == |os| && |m.left| < step
            && (m.ok ==> m.left == [] && forall i | 0 <= i < |os| :: Completed(name, db, os[i], m.objs[i]))
  {
    hide Keyed, Queue, Combine, MergeBulk;
    MergeShifted(name, db, os, step, []);
    KeyedAll(name, os);
    QueueAt(name, db, os);
  }

  /** The end of the window that holds the `k`-th of `total` objects. */
  function WindowEnd(k: nat, total: nat, step: nat): (e: nat)
    requires k < total && step >= 1
    ensures k < e <= total
    decreases k
  {
    if k < step then (if step < total then step else total) else step + WindowEnd(k - step, total - step, step)
  }

  /** A merge of `os` that ended at the `k`-th object, when the objects before `e` had been asked for: the objects in
      front of it are merged, the others are as they were, and the replies behind it were not read. */
  ghost predicate Stopped(name: naming, db: map<key, Reply>, os: seq<Obj>, k: nat, e: nat, m: Outcome) {
    && k < e <= |os| == |m.objs|
    && !m.ok && m.left == Replies(name, db, os[k + 1..e])
    && (forall i | 0 <= i < k :: ReplyTo(name, db, os[i]).Object? && m.objs[i] == Combine(ReplyTo(name, db, os[i]).o, os[i]))
    && (forall i | k <= i < |os| :: m.objs[i] == os[i])
  }

  lemma StoppedHere(name: naming, db: map<key, Reply>, a: seq<Obj>, b: seq<Obj>, k: nat, w: Outcome)
    requires Stopped(name, db, a, k, |a|, w)
    ensures Stopped(name, db, a + b, k, |a|, w.(objs := w.objs + b))
  {
    hide Replies, ReplyTo, Combine;
    assert (a + b)[k + 1..|a|] == a[k + 1..|a|];
  }

  lemma StoppedLater(name: naming, db: map<key, Reply>, a: seq<Obj>, b: seq<Obj>, k: nat, e: nat, x: seq<Obj>, m: Outcome)
    requires Stopped(name, db, b, k, e, m) && |x| == |a|
    requires forall i | 0 <= i < |a| ::
               ReplyTo(name, db, a[i]).Object? && x[i] == Combine(ReplyTo(name, db, a[i]).o, a[i])
    ensures Stopped(name, db, a + b, |a| + k, |a| + e, m.(objs := x + m.objs))
  {
    hide Replies, ReplyTo, Combine;
    assert (a + b)[|a| + k + 1..|a| + e] == b[k + 1..e];
  }

  /** A merge that meets an object the database does not have: the `k`-th, and those before it are there.  The replies
      to the rest of its window stay in the connection. */
  lemma {:induction false} MergeStrays(name: naming, db: map<key, Reply>, os: seq<Obj>, step: nat, k: nat)
    requires step >= 1 && Keyed(name, os) == os && k < |os|
    requires (forall i | 0 <= i < k :: ReplyTo(name, db, os[i]).Object?) && !ReplyTo(name, db, os[k]).Object?
    ensures Stopped(name, db, os, k, WindowEnd(k, |os|, step), MergeBulk(name, db, os, step, []))
    decreases |os|
  {
    hide Keyed, MergeWindow, ReplyTo, Stopped;
    var n := if step < |os| then step else |os|;
    var a, b := os[..n], os[n..];
    assert os == a + b;
    KeyedParts(name, a, b);
    var w := MergeWindow(name, db, a, []);
    if k < n {
      WindowStrays(name, db, a, k);
      StoppedHere(name, db, a, b, k, w);
    } else {
      WindowWhole(name, db, a);
      MergeStrays(name, db, b, step, k - n);
      StoppedLater(name, db, a, b, k - n, WindowEnd(k - n, |b|, step), w.objs, MergeBulk(name, db, b, step, []));
    }
  }

  lemma WindowStrays(name: naming, db: map<key, Reply>, os: seq<Obj>, k: nat)
    requires Keyed(name, os) == os && k < |os|
    requires (forall i | 0 <= i < k :: ReplyTo(name, db, os[i]).Object?) && !ReplyTo(name, db, os[k]).Object?
    ensures Stopped(name, db, os, k, |os|, MergeWindow(name, db, os, [])) && !MergeWindow(name, db, os, []).ok
  {
    hide *;
    WindowStops(name, db, os, k);
    StoppedMix(name, db, os, k);
  }

  lemma FirstReplies(name: naming, db: map<key, Reply>, os: seq<Obj>, k: nat)
    requires k <= |os| && forall i | 0 <= i < k :: ReplyTo(name, db, os[i]).Object?
    ensures AllObjects(Queue(name, db, [], os), k)
    ensures k < |os| ==> Queue(name, db, [], os)[k] == ReplyTo(name, db, os[k])
  {
    hide Queue, ReplyTo;
    QueueAt(name, db, os);
  }

  lemma WindowStops(name: naming, db: map<key, Reply>, os: seq<Obj>, k: nat)
    requires Keyed(name, os) == os && k < |os|
    requires (forall i | 0 <= i < k :: ReplyTo(name, db, os[i]).Object?) && !ReplyTo(name, db, os[k]).Object?
    ensures var q := Queue(name, db, [], os);
            AllObjects(q, k) && MergeWindow(name, db, os, []) == Outcome(false, Mix(os, q, k), q[k + 1..])
  {
    hide *;
    FirstReplies(name, db, os, k);
    MergeRead(name, db, os, [], k);
  }

  lemma StoppedMix(name: naming, db: map<key, Reply>, os: seq<Obj>, k: nat)
    requires k < |os| && forall i | 0 <= i < k :: ReplyTo(name, db, os[i]).Object?
    requires AllObjects(Queue(name, db, [], os), k)
    ensures var q := Queue(name, db, [], os);
            Stopped(name, db, os, k, |os|, Outcome(false, Mix(os, q, k), q[k + 1..]))
  {
    hide Replies, Combine, ReplyTo, Mix, Queue, AllObjects;
    var q := Queue(name, db, [], os);
    QueueAt(name, db, os);
    QueueBehind(name, db, os, k + 1);
    assert os[k + 1..|os|] == os[k + 1..];
    forall i | 0 <= i < |os|
      ensures Mix(os, q, k)[i] == if i < k then Combine(ReplyTo(name, db, os[i]).o, os[i]) else os[i]
    {
      MixAt(os, q, k, i);
    }
  }

  /** The queue of a connection without stray replies. */
  lemma QueueAt(name: naming, db: map<key, Reply>, os: seq<Obj>)
    ensures forall i | 0 <= i < |os| :: Queue(name, db, [], os)[i] == ReplyTo(name, db, os[i])
  {
    hide Replies, ReplyTo;
    forall i | 0 <= i < |os| ensures Queue(name, db, [], os)[i] == ReplyTo(name, db, os[i]) {
      RepliesAt(name, db, os, i);
    }
  }

  lemma QueueBehind(name: naming, db: map<key, Reply>, os: seq<Obj>, n: nat)
    requires n <= |os|
    ensures Queue(name, db, [], os)[n..] == Replies(name, db, os[n..])
  {
    hide Replies;
    assert os == os[..n] + os[n..];
    RepliesSplit(name, db, os[..n], os[n..]);
  }

  lemma WindowWhole(name: naming, db: map<key, Reply>, os: seq<Obj>)
    requires Keyed(name, os) == os && forall i | 0 <= i < |os| :: ReplyTo(name, db, os[i]).Object?
    ensures var w := MergeWindow(name, db, os, []);
            && w.ok && w.left == [] && |w.objs| == |os|
            && (forall i | 0 <= i < |os| ::
                  ReplyTo(name, db, os[i]).Object? && w.objs[i] == Combine(ReplyTo(name, db, os[i]).o, os[i]))
  {
    hide Keyed, Replies, Combine, MergeWindow, ReplyTo, Queue, Mix;
    var q := Queue(name, db, [], os);
    QueueAt(name, db, os);
    assert AllObjects(q, |os|);
    MergeRead(name, db, os, [], |os|);
    forall i | 0 <= i < |os| ensures Mix(os, q, |os|)[i] == Combine(q[i].o, os[i]) {
      MixAt(os, q, |os|, i);
    }
  }

  // ---- fetching a list ----

  /** What a reply puts in the list: `blank`, an empty object, unless it is an object. */
  function ValueOf(r: Reply, blank: Obj): Obj {
    if r.Object? then r.o else blank
  }

  /** How a window fared: nothing was lost; or the first `cut` replies of the queue were lost while the requests were
      sent, and only `read` replies were read before nothing more came. */
  datatype Luck = Fine | Loss(cut: nat, read: nat)

  function Shift(w: Luck): nat {
    if w.Fine? then 0 else w.cut
  }

  /** The `i`-th object of the window gets a reply. */
  predicate Reached(q: seq<Reply>, w: Luck, i: nat) {
    Shift(w) + i < |q| && (w.Loss? ==> i < w.read)
  }

  /** What a window of `n` objects is given from the queue: a lost reply leaves the object empty, and the return code,
      which is tested next, at OK. */
  function Given(q: seq<Reply>, n: nat, w: Luck, blank: Obj): (objs: seq<Obj>)
    ensures |objs| == n
    ensures forall i | 0 <= i < n :: objs[i] == if Reached(q, w, i) then ValueOf(q[Shift(w) + i], blank) else blank
  {
    seq(n, i requires 0 <= i => if Reached(q, w, i) then ValueOf(q[Shift(w) + i], blank) else blank)
  }

  function Unread(q: seq<Reply>, n: nat, w: Luck): seq<Reply> {
    if Shift(w) + n > |q| || (w.Loss? && w.read < n) then [] else q[Shift(w) + n..]
  }

  /** How far a bulk get has come: the objects asked for, the results, and the replies outstanding. */
  datatype Progress = Progress(ix: nat, objs: seq<Obj>, left: seq<Reply>)

  /** One more window, which fared as `w` says. */
  function GetNext(name: naming, db: map<key, Reply>, os: seq<Obj>, blank: Obj, step: nat,
                   p: Progress, w: Luck): (p': Progress)
    requires p.ix == |p.objs| <= |os|
    ensures p'.ix == |p'.objs| <= |os|
  {
    var mx := if p.ix + step <= |os| then p.ix + step else |os|;
    var q, n := Queue(name, db, p.left, os[p.ix..mx]), mx - p.ix;
    Progress(mx, p.objs + Given(q, n, w, blank), Unread(q, n, w))
  }

  /** A bulk get on a connection that holds the replies `s`, over windows that fared as `ws` says. */
  function GetRun(name: naming, db: map<key, Reply>, os: seq<Obj>, blank: Obj, step: nat,
                  s: seq<Reply>, ws: seq<Luck>): (p: Progress)
    ensures p.ix == |p.objs| <= |os|
    decreases |ws|
  {
    if ws == [] then Progress(0, [], s)
    else
      var k := |ws| - 1;
      GetNext(name, db, os, blank, step, GetRun(name, db, os, blank, step, s, ws[..k]), ws[k])
  }

  lemma GetStart(name: naming, db: map<key, Reply>, os: seq<Obj>, blank: Obj, step: nat, s: seq<Reply>)
    ensures GetRun(name, db, os, blank, step, s, []) == Progress(0, [], s)
  {
  }

  lemma GetStep(name: naming, db: map<key, Reply>, os: seq<Obj>, blank: Obj, step: nat,
                s: seq<Reply>, ws: seq<Luck>, w: Luck)
    ensures GetRun(name, db, os, blank, step, s, ws + [w]) ==
            GetNext(name, db, os, blank, step, GetRun(name, db, os, blank, step, s, ws), w)
  {
    hide GetNext;
    assert (ws + [w])[..|ws|] == ws;
  }

  method GetChunk(conn: Connection, name: naming, os: seq<Obj>, blank: Obj)
    returns (ok: bool, objs: seq<Obj>, ghost w: Luck)
    modifies conn`pending, conn`lost, conn`peak
    ensures old(conn.lost) ==> conn.lost
    ensures conn.peak <= Max(old(conn.peak), |old(conn.pending)| + |os|)
    ensures ok ==>
              var q := Queue(name, conn.db, old(conn.pending), os);
              objs == Given(q, |os|, w, blank) && conn.pending == Unread(q, |os|, w)
    ensures |conn.pending| <= |old(conn.pending)| + if ok then 0 else |os|
    ensures !conn.lost ==> ok == (Keyed(name, os) == os) && (ok ==> w.Fine?)
    ensures !conn.lost && !ok ==> conn.pending == Queue(name, conn.db, old(conn.pending), Keyed(name, os))
  {
    hide Keyed, Queue;
    objs, w := [], Fine;
    ghost var s := conn.pending;
    ghost var cut;
    ok, cut := SendGets(conn, name, os);
    if !ok { return; }
    ghost var q := Queue(name, conn.db, s, os);
    ghost var read := 0;
    var ix := 0;
    while ix < |os|
      invariant ix <= |os| && |objs| == ix && read <= ix && cut + read <= |q|
      invariant if read == ix then conn.pending == q[cut + ix..] else conn.pending == [] && conn.lost
      invariant old(conn.lost) ==> conn.lost
      invariant cut > 0 ==> conn.lost
      invariant conn.peak <= Max(old(conn.peak), |s| + |os|)
      invariant forall i | 0 <= i < ix :: objs[i] == if i < read then ValueOf(q[cut + i], blank) else blank
    {
      var r := conn.Response();
      if r.None? {
        // Only a connection that could not be opened anew ends the operation.
        var dead: bool := *;
        if dead { return false, objs, w; }
      } else {
        read := read + 1;
      }
      objs := objs + [if r.Some? then ValueOf(r.value, blank) else blank];
      ix := ix + 1;
    }
    w := if cut == 0 && read == |os| then Fine else Loss(cut, read);
  }

  /** Fetches the record of each object of a list, window by window, on a connection that may hold stray replies.
      Success gives what `GetRun` says for the way the windows fared; and unless something was lost it succeeds if
      and only if there is an object and each has a key. */
  method GetObjectList(conn: Connection, name: naming, os: seq<Obj>, blank: Obj, step: nat)
    returns (ok: bool, objs: seq<Obj>, ghost ws: seq<Luck>)
    requires 1 <= step < U64 / 2 && |os| <= U64 / 2
    modifies conn`pending, conn`lost, conn`peak
    ensures conn.peak <= Max(old(conn.peak), |old(conn.pending)| + step)
    ensures !ok ==> objs == os
    ensures ok ==> GetRun(name, conn.db, os, blank, step, old(conn.pending), ws) == Progress(|os|, objs, conn.pending)
    ensures !conn.lost ==> ok == (os != [] && Keyed(name, os) == os)
    ensures !conn.lost ==> forall w <- ws :: w.Fine?
  {
    hide Keyed, Queue, Given, Unread, GetRun;
    conn.lost := false;
    var got: seq<Obj> := [];
    ws := [];
    ghost var s := conn.pending;
    var ix := 0;
    NothingAsked(name, conn.db, os, s);
    GetStart(name, conn.db, os, blank, step, s);
    while ix < |os|
      invariant ix <= |os| && |conn.pending| <= |s|
      invariant GetRun(name, conn.db, os, blank, step, s, ws) == Progress(ix, got, conn.pending)
      invariant conn.peak <= Max(old(conn.peak), |s| + step)
      invariant !conn.lost ==> Keyed(name, os[..ix]) == os[..ix] && forall w <- ws :: w.Fine?
    {
      SplitAdvances(ix, |os|, step);
      var mx := SplitNext(ix, |os|, step);
      KeyedWindow(name, os, ix, mx);
      var part;
      ghost var w;
      ok, part, w := GetChunk(conn, name, os[ix..mx], blank);
      if !ok {
        return false, os, ws;
      }
      GetStep(name, conn.db, os, blank, step, s, ws, w);
      ws := ws + [w];
      got := got + part;
      ix := mx;
    }
    assert os[..ix] == os;
    return os != [], got, ws;
  }

  /** Going on from the objects before `i` to those before `j`. */
  lemma KeyedWindow(name: naming, os: seq<Obj>, i: nat, j: nat)
    requires i <= j <= |os|
    ensures Keyed(name, os[..i]) == os[..i] && Keyed(name, os[i..j]) == os[i..j] ==> Keyed(name, os[..j]) == os[..j]
    ensures Keyed(name, os[..i]) == os[..i] && Keyed(name, os[i..j]) != os[i..j] ==>
              Keyed(name, os) != os && Keyed(name, os) == os[..i] + Keyed(name, os[i..j])
  {
    hide Keyed;
    var w := os[i..j];
    KeyedSplit(name, os[..i], w);
    KeyedSplit(name, os[..j], os[j..]);
    assert os[..j] == os[..i] + w && os == os[..j] + os[j..];
    if Keyed(name, os[..i]) == os[..i] && Keyed(name, w) != w {
      assert |os[..i] + Keyed(name, w)| < j;
    }
  }

  // ---- what a bulk get returns ----

  /** The `i`-th result is the record stored under the `i`-th key. */
  ghost predicate Fetched(name: naming, db: map<key, Reply>, blank: Obj, os: seq<Obj>, objs: seq<Obj>) {
    |objs| == |os| && forall i | 0 <= i < |os| :: objs[i] == ValueOf(ReplyTo(name, db, os[i]), blank)
  }

  /** How many objects the first `k` windows cover. */
  function Covered(total: nat, step: nat, k: nat): (n: nat)
    ensures n <= total
  {
    if k == 0 then 0
    else if Covered(total, step, k - 1) + step <= total then Covered(total, step, k - 1) + step
    else total
  }

  /** Whose reply the `i`-th of `n` objects of a window gets, on a connection without stray replies. */
  function InWindow(w: Luck, n: nat, i: nat): (j: Option<nat>)
    ensures j.Some? ==> i <= j.value < n
  {
    if i + Shift(w) < n && (w.Loss? ==> i < w.read) then Some(i + Shift(w)) else None
  }

  /** And whose the `i`-th of all. */
  function SourceOf(total: nat, step: nat, ws: seq<Luck>, i: nat): (j: Option<nat>)
    ensures j.Some? ==> j.value < total
  {
    if ws == [] then None
    else
      var k := |ws| - 1;
      var a, b := Covered(total, step, k), Covered(total, step, k + 1);
      if i < a then SourceOf(total, step, ws[..k], i)
      else
        match InWindow(ws[k], b - a, i - a)
        case Some(j) => Some(a + j)
        case None => None
  }

  /** What an object is given. */
  function From(name: naming, db: map<key, Reply>, os: seq<Obj>, blank: Obj, j: Option<nat>): Obj
    requires j.Some? ==> j.value < |os|
  {
    if j.Some? then ValueOf(ReplyTo(name, db, os[j.value]), blank) else blank
  }

  lemma WindowLaw(name: naming, db: map<key, Reply>, os: seq<Obj>, blank: Obj, w: Luck, i: nat)
    requires i < |os|
    ensures var q := Queue(name, db, [], os);
            Given(q, |os|, w, blank)[i] == From(name, db, os, blank, InWindow(w, |os|, i))
  {
    hide ReplyTo, Queue, Given, ValueOf;
    QueueAt(name, db, os);
  }

  /** How far a bulk get has come, and that it leaves nothing behind. */
  lemma {:induction false} GetEnds(name: naming, db: map<key, Reply>, os: seq<Obj>, blank: Obj, step: nat, ws: seq<Luck>)
    ensures var p := GetRun(name, db, os, blank, step, [], ws);
            p.left == [] && p.ix == Covered(|os|, step, |ws|)
    decreases |ws|
  {
    hide Queue, Given;
    if ws != [] {
      GetEnds(name, db, os, blank, step, ws[..|ws| - 1]);
    }
  }

  /** Result by result, for any losses, on a connection without stray replies. */
  lemma {:induction false} GetLaw(name: naming, db: map<key, Reply>, os: seq<Obj>, blank: Obj, step: nat,
                                  ws: seq<Luck>, i: nat)
    requires i < GetRun(name, db, os, blank, step, [], ws).ix
    ensures GetRun(name, db, os, blank, step, [], ws).objs[i] ==
            From(name, db, os, blank, SourceOf(|os|, step, ws, i))
    decreases |ws|
  {
    hide ReplyTo, Queue, Given, Unread, ValueOf;
    var k := |ws| - 1;
    GetEnds(name, db, os, blank, step, ws);
    GetEnds(name, db, os, blank, step, ws[..k]);
    var a, b := Covered(|os|, step, k), Covered(|os|, step, k + 1);
    if i < a {
      GetLaw(name, db, os, blank, step, ws[..k], i);
    } else {
      WindowLaw(name, db, os[a..b], blank, ws[k], i - a);
    }
  }

  /** A bulk get that reports success returned the records of its objects if and only if each object was given its own
      reply or one that says the same, and each that got none has no record to return. */
  lemma FetchedExact(name: naming, db: map<key, Reply>, os: seq<Obj>, blank: Obj, step: nat, ws: seq<Luck>)
    requires GetRun(name, db, os, blank, step, [], ws).ix == |os|
    ensures Fetched(name, db, blank, os, GetRun(name, db, os, blank, step, [], ws).objs) <==>
            forall i | 0 <= i < |os| ::
              From(name, db, os, blank, SourceOf(|os|, step, ws, i)) == ValueOf(ReplyTo(name, db, os[i]), blank)
  {
    hide GetRun, From, SourceOf, ReplyTo, ValueOf;
    forall i | 0 <= i < |os|
      ensures GetRun(name, db, os, blank, step, [], ws).objs[i] ==
              From(name, db, os, blank, SourceOf(|os|, step, ws, i))
    {
      GetLaw(name, db, os, blank, step, ws, i);
    }
  }

  /** When the connection broke only after the requests were sent: the results are right if and only if every object
      whose reply was lost has no record. */
  lemma LostExact(name: naming, db: map<key, Reply>, os: seq<Obj>, blank: Obj, step: nat, ws: seq<Luck>)
    requires GetRun(name, db, os, blank, step, [], ws).ix == |os| && forall w <- ws :: Shift(w) == 0
    ensures Fetched(name, db, blank, os, GetRun(name, db, os, blank, step, [], ws).objs) <==>
            forall i | 0 <= i < |os| && SourceOf(|os|, step, ws, i).None? ::
              ValueOf(ReplyTo(name, db, os[i]), blank) == blank
  {
    hide GetRun, ReplyTo, SourceOf;
    FetchedExact(name, db, os, blank, step, ws);
    forall i | 0 <= i < |os| && SourceOf(|os|, step, ws, i).Some? ensures SourceOf(|os|, step, ws, i) == Some(i) {
      OwnSource(|os|, step, ws, i);
    }
  }

  lemma {:induction false} OwnSource(total: nat, step: nat, ws: seq<Luck>, i: nat)
    requires forall w <- ws :: Shift(w) == 0
    ensures SourceOf(total, step, ws, i).Some? ==> SourceOf(total, step, ws, i) == Some(i)
    decreases |ws|
  {
    if ws != [] {
      OwnSource(total, step, ws[..|ws| - 1], i);
    }
  }

  /** Nothing lost, no strays: the records. */
  lemma FineFetched(name: naming, db: map<key, Reply>, os: seq<Obj>, blank: Obj, step: nat, ws: seq<Luck>)
    requires GetRun(name, db, os, blank, step, [], ws).ix == |os| && forall w <- ws :: w.Fine?
    ensures Fetched(name, db, blank, os, GetRun(name, db, os, blank, step, [], ws).objs)
  {
    hide GetRun, ReplyTo, SourceOf;
    GetEnds(name, db, os, blank, step, ws);
    LostExact(name, db, os, blank, step, ws);
    forall i | 0 <= i < |os| ensures SourceOf(|os|, step, ws, i) == Some(i) {
      FineSource(|os|, step, ws, i);
    }
  }

  lemma {:induction false} FineSource(total: nat, step: nat, ws: seq<Luck>, i: nat)
    requires (forall w <- ws :: w.Fine?) && i < Covered(total, step, |ws|)
    ensures SourceOf(total, step, ws, i) == Some(i)
    decreases |ws|
  {
    assert ws[|ws| - 1] in ws;
    if i < Covered(total, step, |ws| - 1) {
      FineSource(total, step, ws[..|ws| - 1], i);
    }
  }

  /** One stored record whose reply is lost: success, and an empty object. */
  lemma SuccessWithoutRecord(name: naming, db: map<key, Reply>, o: Obj, record: Obj, blank: Obj, step: nat)
    requires step >= 1 && ReplyTo(name, db, o) == Object(record) && record != blank
    ensures GetRun(name, db, [o], blank, step, [], [Loss(0, 0)]) == Progress(1, [blank], [])
    ensures !Fetched(name, db, blank, [o], [blank])
  {
    var ws := [Loss(0, 0)];
    assert ws[..0] == [];
    assert GetRun(name, db, [o], blank, step, [], ws[..0]) == Progress(0, [], []);
  }

  /** With stray replies in the connection and nothing lost, the `i`-th object is given the `i`-th reply of the queue:
      a stray, or the reply to the object as many places before it as there are strays; and as many are left. */
  lemma {:induction false} GetShifted(name: naming, db: map<key, Reply>, os: seq<Obj>, blank: Obj, step: nat,
                                      s: seq<Reply>, ws: seq<Luck>)
    requires forall w <- ws :: w.Fine?
    ensures var p := GetRun(name, db, os, blank, step, s, ws); var q := Queue(name, db, s, os[..p.ix]);
            p.objs == Given(q, p.ix, Fine, blank) && p.left == q[p.ix..]
    decreases |ws|
  {
    hide Queue;
    if ws == [] {
      NothingAsked(name, db, os, s);
    } else {
      var k := |ws| - 1;
      GetShifted(name, db, os, blank, step, s, ws[..k]);
      var p := GetRun(name, db, os, blank, step, s, ws[..k]);
      var mx := GetRun(name, db, os, blank, step, s, ws).ix;
      var a, b := os[..p.ix], os[p.ix..mx];
      assert os[..mx] == a + b && ws[k].Fine?;
      QueueParts(name, db, a, b, s);
      var q, r := Queue(name, db, s, os[..mx]), Queue(name, db, s, a);
      assert q[p.ix..][|b|..] == q[mx..];
      GivenParts(r, q, p.ix, mx - p.ix, blank);
    }
  }

  lemma GivenParts(r: seq<Reply>, q: seq<Reply>, n: nat, m: nat, blank: Obj)
    requires r <= q && n <= |r| && n + m <= |q|
    ensures Given(r, n, Fine, blank) + Given(q[n..], m, Fine, blank) == Given(q, n + m, Fine, blank)
  {
  }

  /** A get that follows a merge which stopped at the `k`-th object: it is given the reply to the next object of that
      merge, and its own reply is left for the operation after it. */
  lemma NextTakesStray(name: naming, db: map<key, Reply>, os: seq<Obj>, step: nat, k: nat, o: Obj, blank: Obj)
    requires step >= 1 && Keyed(name, os) == os && k + 1 < |os| && k + 1 < WindowEnd(k, |os|, step)
    requires (forall i | 0 <= i < k :: ReplyTo(name, db, os[i]).Object?) && !ReplyTo(name, db, os[k]).Object?
    ensures var s := MergeBulk(name, db, os, step, []).left;
            && s != [] && s[0] == ReplyTo(name, db, os[k + 1])
            && GetRun(name, db, [o], blank, step, s, [Fine]) ==
               Progress(1, [ValueOf(ReplyTo(name, db, os[k + 1]), blank)], s[1..] + [ReplyTo(name, db, o)])
  {
    hide Keyed, MergeBulk, ReplyTo;
    MergeStrays(name, db, os, step, k);
    var s := MergeBulk(name, db, os, step, []).left;
    var e := WindowEnd(k, |os|, step);
    RepliesAt(name, db, os[k + 1..e], 0);
    OneGet(name, db, o, blank, step, s);
  }

  lemma OneGet(name: naming, db: map<key, Reply>, o: Obj, blank: Obj, step: nat, s: seq<Reply>)
    requires step >= 1 && s != []
    ensures GetRun(name, db, [o], blank, step, s, [Fine]) ==
            Progress(1, [ValueOf(s[0], blank)], s[1..] + [ReplyTo(name, db, o)])
  {
    hide ReplyTo;
    var ws := [Fine];
    assert ws[..0] == [];
    assert GetRun(name, db, [o], blank, step, s, ws[..0]) == Progress(0, [], s);
    assert [o][0..1] == [o] && [o][1..] == [];
    assert Replies(name, db, [o]) == [ReplyTo(name, db, o)];
    var q := Queue(name, db, s, [o]);
    assert q == s + [ReplyTo(name, db, o)] && q[1..] == s[1..] + [ReplyTo(name, db, o)];
    assert Given(q, 1, Fine, blank) == [ValueOf(s[0], blank)];
  }

  // ---- storing a list ----

  /** The database after the objects are stored one after the other. */
  function Stored(name: naming, db: map<key, Reply>, os: seq<Obj>): map<key, Reply> {
    if os == [] then db
    else
      var n := |os| - 1;
      var d, k := Stored(name, db, os[..n]), name(os[n]);
      if k.Some? then d[k.value := Object(os[n])] else d
  }

  /** What the database has under a key: the last object with that key, or what it had before. */
  lemma {:induction false} StoredFetch(name: naming, db: map<key, Reply>, os: seq<Obj>, k: key)
    ensures Fetch(Stored(name, db, os), k) ==
            if Last(name, os, k) < |os| then Object(os[Last(name, os, k)]) else Fetch(db, k)
    decreases |os|
  {
    if os != [] {
      StoredFetch(name, db, os[..|os| - 1], k);
    }
  }

  /** The index of the last object with that key; one past the end if there is none. */
  function Last(name: naming, os: seq<Obj>, k: key): (i: nat)
    ensures i <= |os|
    ensures i < |os| ==> name(os[i]) == Some(k) && forall j | i < j < |os| :: name(os[j]) != Some(k)
    ensures i == |os| ==> forall o <- os :: name(o) != Some(k)
  {
    if os == [] then 0
    else
      var n := |os| - 1;
      var i := Last(name, os[..n], k);
      if name(os[n]) == Some(k) then n else if i < n then i else |os|
  }

  lemma {:induction false} StoredSplit(name: naming, db: map<key, Reply>, a: seq<Obj>, b: seq<Obj>)
    ensures Stored(name, Stored(name, db, a), b) == Stored(name, db, a + b)
    decreases |b|
  {
    if b == [] {
      assert a + b == a;
    } else {
      var n := |b| - 1;
      StoredSplit(name, db, a, b[..n]);
      assert (a + b)[..|a| + n] == a + b[..n];
    }
  }

  function Statuses(n: nat): (q: seq<Reply>)
    ensures |q| == n
  {
    seq(n, _ => Status)
  }

  /** The requests of one window: they take effect in order, up to the first object without a key. */
  method SendSets(conn: Connection, name: naming, os: seq<Obj>) returns (ok: bool, ghost cut: nat)
    modifies conn
    ensures old(conn.lost) ==> conn.lost
    ensures conn.peak <= Max(old(conn.peak), |old(conn.pending)| + |os|)
    ensures ok ==>
              && cut <= |old(conn.pending)| + |os| && (conn.lost <==> old(conn.lost) || cut > 0)
              && conn.pending == (old(conn.pending) + Statuses(|os|))[cut..]
    ensures !conn.lost ==>
              && ok == (Keyed(name, os) == os)
              && conn.db == Stored(name, old(conn.db), Keyed(name, os))
              && conn.pending == old(conn.pending) + Statuses(|Keyed(name, os)|)
  {
    hide Keyed;
    cut := 0;
    var ix := 0;
    ghost var s, d := conn.pending, conn.db;
    NothingAsked(name, conn.db, os, s);
    assert Stored(name, d, os[..0]) == d && (s + Statuses(0))[0..] == s;
    while ix < |os|
      invariant ix <= |os| && Keyed(name, os[..ix]) == os[..ix]
      invariant cut <= |s| + ix && conn.pending == (s + Statuses(ix))[cut..]
      invariant conn.lost <==> old(conn.lost) || cut > 0
      invariant conn.peak <= Max(old(conn.peak), |s| + ix)
      invariant !conn.lost ==> conn.db == Stored(name, d, os[..ix])
    {
      KeyedPrefix(name, os, ix);
      var k := name(os[ix]);
      if k.None? { return false, cut; }
      ghost var was := conn.pending;
      OneStatus(s, ix);
      OneMore(s + Statuses(ix), Status, cut);
      ok := conn.Request(Status);
      if !ok { return false, cut; }
      if conn.pending != was + [Status] {
        cut := |s| + ix;
      }
      conn.db := conn.db[k.value := Object(os[ix])];
      assert os[..ix + 1][..ix] == os[..ix];
      ix := ix + 1;
    }
    assert os[..ix] == os;
    return true, cut;
  }

  lemma OneStatus(s: seq<Reply>, n: nat)
    ensures s + Statuses(n + 1) == s + Statuses(n) + [Status]
  {
  }

  /** Reads the replies of a window; a reply that does not come ends the operation. */
  method ReadStatuses(conn: Connection, count: nat) returns (ok: bool)
    modifies conn`pending, conn`lost
    ensures old(conn.lost) ==> conn.lost
    ensures ok ==> conn.lost == old(conn.lost) && count <= |old(conn.pending)| && conn.pending == old(conn.pending)[count..]
    ensures !conn.lost && count <= |old(conn.pending)| ==> ok
  {
    var ix := 0;
    while ix < count
      invariant ix <= count && ix <= |old(conn.pending)| && conn.pending == old(conn.pending)[ix..]
      invariant conn.lost == old(conn.lost)
    {
      var r := conn.Response();
      if r.None? { return false; }
      ix := ix + 1;
    }
    return true;
  }

  /** Stores a list, window by window, on a connection that may hold stray replies.  Unless something is lost, it
      succeeds if and only if each object has a key, the objects in front of the first that has none are stored, and
      as many replies are left as there were; without strays, success means that nothing was lost. */
  method StoreObjects(conn: Connection, name: naming, os: seq<Obj>, step: nat) returns (ok: bool)
    requires 1 <= step < U64 / 2 && |os| <= U64 / 2
    modifies conn
    ensures conn.peak <= Max(old(conn.peak), |old(conn.pending)| + step)
    ensures ok && old(conn.pending) == [] ==> !conn.lost && conn.pending == []
    ensures !conn.lost ==> ok == (Keyed(name, os) == os)
    ensures !conn.lost ==> conn.db == Stored(name, old(conn.db), Keyed(name, os))
    ensures !conn.lost && ok ==> |conn.pending| == |old(conn.pending)|
  {
    hide Keyed, Stored;
    conn.lost := false;
    var ix := 0;
    ghost var s := conn.pending;
    NothingAsked(name, conn.db, os, s);
    StoredNone(name, conn.db, os);
    while ix < |os|
      invariant ix <= |os| && |conn.pending| <= |s| && conn.peak <= Max(old(conn.peak), |s| + step)
      invariant s == [] ==> !conn.lost
      invariant !conn.lost ==>
                  && |conn.pending| == |s| && Keyed(name, os[..ix]) == os[..ix]
                  && conn.db == Stored(name, old(conn.db), os[..ix])
    {
      SplitAdvances(ix, |os|, step);
      var mx := SplitNext(ix, |os|, step);
      KeyedWindow(name, os, ix, mx);
      StoredSplit(name, old(conn.db), os[..ix], Keyed(name, os[ix..mx]));
      assert os[..mx] == os[..ix] + os[ix..mx];
      ghost var cut;
      ok, cut := SendSets(conn, name, os[ix..mx]);
      if !ok { return; }
      ok := ReadStatuses(conn, mx - ix);
      if !ok { return; }
      ix := mx;
    }
    assert os[..ix] == os;
    return true;
  }

  lemma StoredNone(name: naming, db: map<key, Reply>, os: seq<Obj>)
    ensures Stored(name, db, os[..0]) == db
  {
  }
}
