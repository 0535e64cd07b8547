/** The messages between a client and the service that owns an object: what one side writes, the other side
    reads back, to the byte. */
module Wire {
  import opened Bytes
  import opened Tlv
  import opened TlvPath

  const OK: nat := 0
  const ERR: nat := 1

  const GET: nat := 0
  const GET_RESP: nat := 1
  const GET_DONE: nat := 2
  const COMMIT_OBJECT: nat := 4
  const RETURN_CODE: nat := 5
  const REVERT: nat := 6
  const COMMIT_CHANGE: nat := 7
  const COMMIT_PREV: nat := 8
  const STATS: nat := 9

  const MSG_HDR: nat := 12
  const CODE_LEN: nat := 4

  /** The attribute in which a service returns its verdict on a change. */
  const RC_ATTR: nat := 131105

  /** A serialised object: its key and then its attributes. */
  type obj = o: seq<byte> | KEY_LEN <= |o| witness seq(KEY_LEN, _ => 0)

  function Attrs(o: obj): seq<byte> {
    o[KEY_LEN..]
  }

  /** The number of elements of its key. */
  function KeySize(o: obj): nat {
    Word(o, 0, 4)
  }

  /** Its length fits the header of a message. */
  predicate Fits(o: Option<obj>) {
    o.Some? ==> |o.value| < U32
  }

  // ---- frames ----

  /** Version, length and operation, then the payload. */
  function Frame(op: nat, payload: seq<byte>): (f: seq<byte>)
    ensures |f| == MSG_HDR + |payload|
  {
    Le(0, 4) + Le(|payload|, 4) + Le(op, 4) + payload
  }

  datatype Msg = Msg(op: nat, len: nat, rest: seq<byte>)

  function ReadHeader(s: seq<byte>): Option<Msg> {
    if |s| < MSG_HDR then None else Some(Msg(Word(s, 8, 4), Word(s, 4, 4), s[MSG_HDR..]))
  }

  /** What remains after a read of `n` bytes; one that comes up short uses up what there is. */
  function Skip(s: seq<byte>, n: nat): seq<byte> {
    if |s| < n then [] else s[n..]
  }

  /** An object is accepted if all of it arrives and it is long enough for its key. */
  function ReadObject(s: seq<byte>, len: nat): Option<obj> {
    if len == 0 || |s| < len || len < KEY_LEN then None else Some(s[..len])
  }

  /** A return code is read over the present one; one that comes up short replaces only its low bytes. */
  function ReadCode(rc: nat, s: seq<byte>): nat {
    if |s| < CODE_LEN then Word(s + Le(rc, CODE_LEN)[|s|..], 0, CODE_LEN) else Word(s, 0, CODE_LEN)
  }

  lemma WordLe(a: seq<byte>, n: nat, b: seq<byte>)
    requires n < U32
    ensures Word(a + Le(n, 4) + b, |a|, 4) == n
  {
    WordBounds();
    DecodeEncode(n, 4);
    var s, w := a + Le(n, 4) + b, Le(n, 4);
    assert s[|a|..|a| + 4] == w == w[0..0 + 4];
    SameWord(s, |a|, w, 0, 4);
  }

  /** A return code read back is the one sent. */
  lemma CodeReads(rc: nat, n: nat, x: seq<byte>)
    requires n < U32
    ensures ReadCode(rc, Le(n, CODE_LEN) + x) == n
  {
    hide Word, Le;
    WordLe([], n, x);
    assert [] + Le(n, 4) + x == Le(n, 4) + x;
  }

  /** The header of a frame reads back, also when the stream ends somewhere behind it. */
  lemma FrameReads(op: nat, payload: seq<byte>, x: seq<byte>, n: nat)
    requires op < U32 && |payload| < U32
    requires MSG_HDR <= n <= MSG_HDR + |payload| + |x|
    ensures ReadHeader((Frame(op, payload) + x)[..n]) == Some(Msg(op, |payload|, (payload + x)[..n - MSG_HDR]))
  {
    hide Le, Word;
    var v, l, o := Le(0, 4), Le(|payload|, 4), Le(op, 4);
    var t := (payload + x)[..n - MSG_HDR];
    WordLe(v, |payload|, o + t);
    WordLe(v + l, op, t);
    CutBehind(v + l + o, payload, x, n);
    Grouped(v + l, o, t);
  }

  lemma CutBehind(a: seq<byte>, b: seq<byte>, x: seq<byte>, n: nat)
    requires |a| <= n <= |a| + |b| + |x|
    ensures (a + b + x)[..n] == a + (b + x)[..n - |a|]
  {
  }

  lemma WholeFrameReads(op: nat, payload: seq<byte>, x: seq<byte>)
    requires op < U32 && |payload| < U32
    ensures ReadHeader(Frame(op, payload) + x) == Some(Msg(op, |payload|, payload + x))
  {
    hide Frame, ReadHeader;
    var s, n := Frame(op, payload) + x, MSG_HDR + |payload| + |x|;
    FrameReads(op, payload, x, n);
    assert s[..n] == s && (payload + x)[..n - MSG_HDR] == payload + x;
  }

  /** One direction of a connection: the bytes written and not yet read. */
  class Channel {
    var data: seq<byte>

    constructor ()
      ensures data == []
    {
      data := [];
    }

    method Send(op: nat, payload: seq<byte>)
      modifies this
      ensures data == old(data) + Frame(op, payload)
    {
      data := data + Frame(op, payload);
    }

    method Header() returns (m: Option<Msg>)
      modifies this
      ensures m == ReadHeader(old(data))
      ensures data == if m.Some? then m.value.rest else []
      ensures m.Some? ==> |data| + MSG_HDR == |old(data)|
    {
      m := ReadHeader(data);
      data := if m.Some? then m.value.rest else [];
    }

    method Object(len: nat) returns (o: Option<obj>)
      modifies this
      ensures o == ReadObject(old(data), len) && data == Skip(old(data), len)
      ensures o.Some? ==> |old(data)| == |data| + len
    {
      o := ReadObject(data, len);
      data := Skip(data, len);
    }

    method Code(old_rc: nat) returns (rc: nat)
      modifies this
      ensures rc == ReadCode(old_rc, old(data)) && data == Skip(old(data), CODE_LEN)
    {
      rc := ReadCode(old_rc, data);
      data := Skip(data, CODE_LEN);
    }
  }

  // ---- GET ----

  /** What a handler gives for a get request; it may put holes in its list. */
  datatype Answer = Answer(rc: nat, results: seq<Option<obj>>)

  ghost predicate Sendable(a: Answer) {
    a.rc < U32 && forall r <- a.results :: Fits(r)
  }

  /** The results that are not holes. */
  function Objects(results: seq<Option<obj>>): seq<obj> {
    if results == [] then []
    else (if results[0].Some? then [results[0].value] else []) + Objects(results[1..])
  }

  function Stream(objs: seq<obj>): seq<byte> {
    if objs == [] then Frame(GET_DONE, []) else Frame(GET_RESP, objs[0]) + Stream(objs[1..])
  }

  /** Everything the service sends for one get request. */
  function GetReply(a: Answer): seq<byte> {
    if a.rc != OK then Frame(RETURN_CODE, Le(a.rc, CODE_LEN)) else Stream(Objects(a.results))
  }

  lemma {:induction false} ObjectsAppend(a: seq<Option<obj>>, o: Option<obj>)
    ensures Objects(a + [o]) == Objects(a) + if o.Some? then [o.value] else []
  {
    if a == [] {
      assert a + [o] == [o] && [o][1..] == [];
    } else {
      ObjectsAppend(a[1..], o);
      assert (a + [o])[1..] == a[1..] + [o];
      GroupedObjs(if a[0].Some? then [a[0].value] else [], Objects(a[1..]), if o.Some? then [o.value] else []);
    }
  }

  lemma GroupedObjs(a: seq<obj>, b: seq<obj>, c: seq<obj>)
    ensures a + (b + c) == a + b + c
  {
  }

  /** The frames of the results sent so far. */
  function Frames(objs: seq<obj>): seq<byte> {
    if objs == [] then [] else Frames(objs[..|objs| - 1]) + Frame(GET_RESP, objs[|objs| - 1])
  }

  lemma {:induction false} FramesStream(a: seq<obj>, b: seq<obj>)
    ensures Frames(a) + Stream(b) == Stream(a + b)
    decreases |a|
  {
    hide Frame;
    if a == [] {
      assert a + b == b && [] + Stream(b) == Stream(b);
    } else {
      var n := |a| - 1;
      FramesStream(a[..n], [a[n]] + b);
      assert a[..n] + ([a[n]] + b) == a + b;
      assert ([a[n]] + b)[1..] == b;
      var f := Frame(GET_RESP, a[n]);
      assert Frames(a[..n]) + (f + Stream(b)) == (Frames(a[..n]) + f) + Stream(b);
    }
  }

  /** What one more result adds to the bytes sent. */
  lemma FramesStep(results: seq<Option<obj>>, ix: nat)
    requires ix < |results|
    ensures var r := results[ix];
            Frames(Objects(results[..ix + 1])) ==
            Frames(Objects(results[..ix])) + if r.Some? then Frame(GET_RESP, r.value) else []
  {
    hide Frame, Objects;
    var os := Objects(results[..ix]);
    ObjectsAppend(results[..ix], results[ix]);
    assert results[..ix + 1] == results[..ix] + [results[ix]];
    if results[ix].Some? {
      assert (os + [results[ix].value])[..|os|] == os;
    } else {
      assert os + [] == os;
    }
  }

  /** The service's side, once the handler has answered. */
  method SendResults(a: Answer, ch: Channel)
    modifies ch
    ensures ch.data == old(ch.data) + GetReply(a)
  {
    hide Frame, Le, Frames, Objects;
    if a.rc != OK {
      ch.Send(RETURN_CODE, Le(a.rc, CODE_LEN));
      return;
    }
    var ix := 0;
    ghost var was, sent := ch.data, Frames(Objects(a.results[..0]));
    NothingSent(a.results, was);
    while ix < |a.results|
      invariant ix <= |a.results| && ch.data == was + sent && sent == Frames(Objects(a.results[..ix]))
    {
      FramesStep(a.results, ix);
      assert sent + [] == sent;
      if a.results[ix].Some? {
        ch.Send(GET_RESP, a.results[ix].value);
        Grouped(was, sent, Frame(GET_RESP, a.results[ix].value));
      }
      ix := ix + 1;
      sent := Frames(Objects(a.results[..ix]));
    }
    assert a.results[..ix] == a.results;
    ch.Send(GET_DONE, []);
    Grouped(was, sent, Frame(GET_DONE, []));
    FramesStream(Objects(a.results), []);
    assert Objects(a.results) + [] == Objects(a.results);
  }

  lemma Grouped(a: seq<byte>, b: seq<byte>, c: seq<byte>)
    ensures (a + b) + c == a + (b + c)
  {
  }

  lemma NothingSent(results: seq<Option<obj>>, was: seq<byte>)
    ensures was + Frames(Objects(results[..0])) == was
  {
    assert results[..0] == [];
  }

  /** What the client has after reading `s`: a return code, the objects received, and the bytes not read.  With
      a timeout it waits before each message; `waits` are the results of these waits, all further ones being OK.  A wait
      that ends in time sets the return code to OK, and one that does not ends the get. */
  datatype Got = Got(rc: nat, objs: seq<obj>, rest: seq<byte>)

  function Receive(s: seq<byte>, timed: bool, waits: seq<nat>): Got
    decreases |s|
  {
    var rc := if !timed then ERR else if waits == [] then OK else waits[0];
    if timed && rc != OK then Got(rc, [], s)
    else
    match ReadHeader(s)
    case None => Got(rc, [], [])
    case Some(Msg(op, len, t)) =>
      if op == RETURN_CODE then Got(ReadCode(rc, t), [], Skip(t, CODE_LEN))
      else if op == GET_DONE then Got(OK, [], t)
      else if op != GET_RESP then Got(rc, [], t)
      else
        match ReadObject(t, len)
        case None => Got(rc, [], Skip(t, len))
        case Some(o) => var g := Receive(t[len..], timed, Later(waits)); g.(objs := [o] + g.objs)
  }

  function Later(waits: seq<nat>): seq<nat> {
    if waits == [] then [] else waits[1..]
  }

  /** The client's side, once the request is sent. */
  method ProcessGet(ch: Channel, timed: bool, waits: seq<nat>, list: seq<obj>) returns (rc: nat, objs: seq<obj>)
    modifies ch
    ensures var g := Receive(old(ch.data), timed, waits); rc == g.rc && objs == list + g.objs && ch.data == g.rest
  {
    hide ReadHeader, ReadObject, ReadCode;
    rc, objs := ERR, list;
    ghost var g := Receive(ch.data, timed, waits);
    var going, op, left := true, None, waits;
    while going
      invariant going ==> (op.Some? ==> op.value == GET_RESP) && (rc == ERR || timed)
      invariant going ==>
                  var h := Receive(ch.data, timed, left);
                  g.rc == h.rc && list + g.objs == objs + h.objs && g.rest == h.rest
      invariant !going ==>
                  && g.rc == (if op == Some(GET_DONE) then OK else rc)
                  && list + g.objs == objs && g.rest == ch.data
      decreases going, |ch.data|
    {
      going := false;
      if timed {
        rc := if left == [] then OK else left[0];
        if rc != OK { break; }
      }
      left := Later(left);
      var m := ch.Header();
      if m.Some? {
        op := Some(m.value.op);
        if m.value.op == RETURN_CODE {
          rc := ch.Code(rc);
        } else if m.value.op == GET_RESP {
          var o := ch.Object(m.value.len);
          if o.Some? {
            ghost var h := Receive(ch.data, timed, left);
            assert objs + ([o.value] + h.objs) == (objs + [o.value]) + h.objs;
            objs := objs + [o.value];
            going := true;
          }
        }
      }
    }
    if op == Some(GET_DONE) {
      rc := OK;
    }
  }

  // ---- both sides of a get ----

  lemma {:induction false} ObjectsFit(results: seq<Option<obj>>)
    requires forall r <- results :: Fits(r)
    ensures forall o <- Objects(results) :: |o| < U32
  {
    if results != [] {
      assert results[0] in results;
      ObjectsFit(results[1..]);
    }
  }

  lemma {:induction false} StreamReads(objs: seq<obj>, x: seq<byte>, timed: bool)
    requires forall o <- objs :: |o| < U32
    ensures Receive(Stream(objs) + x, timed, []) == Got(OK, objs, x)
  {
    hide Frame, ReadHeader, Word;
    if objs == [] {
      WholeFrameReads(GET_DONE, [], x);
      assert [] + x == x;
    } else {
      var o := objs[0];
      var t: seq<byte> := Stream(objs[1..]) + x;
      Grouped(Frame(GET_RESP, o), Stream(objs[1..]), x);
      WholeFrameReads(GET_RESP, o, t);
      assert (o + t)[..|o|] == o && (o + t)[|o|..] == t;
      StreamReads(objs[1..], x, timed);
    }
  }

  /** The objects whose frames fit in the first `n` bytes. */
  function Arrived(objs: seq<obj>, n: nat): seq<obj> {
    if objs == [] || n < MSG_HDR + |objs[0]| then []
    else [objs[0]] + Arrived(objs[1..], n - MSG_HDR - |objs[0]|)
  }

  lemma CutFrame(op: nat, o: seq<byte>, x: seq<byte>, n: nat)
    requires op < U32 && |o| < U32 && MSG_HDR + |o| <= n <= MSG_HDR + |o| + |x|
    ensures var t := (o + x)[..n - MSG_HDR];
            && ReadHeader((Frame(op, o) + x)[..n]) == Some(Msg(op, |o|, t))
            && t[..|o|] == o && t[|o|..] == x[..n - MSG_HDR - |o|]
  {
    hide Frame, ReadHeader;
    FrameReads(op, o, x, n);
  }

  lemma {:induction false} StreamCut(objs: seq<obj>, n: nat, timed: bool)
    requires forall o <- objs :: |o| < U32
    requires n < |Stream(objs)|
    ensures Receive(Stream(objs)[..n], timed, []) == Got(if timed then OK else ERR, Arrived(objs, n), [])
    decreases |objs|
  {
    hide Frame, Word, Frame;
    if n >= MSG_HDR {
      assert objs != [];
      var o, x := objs[0], Stream(objs[1..]);
      if n < MSG_HDR + |o| {
        FrameReads(GET_RESP, o, x, n);
      } else {
        CutFrame(GET_RESP, o, x, n);
        StreamCut(objs[1..], n - MSG_HDR - |o|, timed);
      }
    }
  }

  lemma ReceiveFirst(o: obj, t: seq<byte>, ws: seq<nat>)
    requires |o| < U32 && (ws != [] ==> ws[0] == OK)
    ensures var g := Receive(t, true, Later(ws));
            Receive(Frame(GET_RESP, o) + t, true, ws) == g.(objs := [o] + g.objs)
  {
    hide Frame, ReadHeader, Word;
    WholeFrameReads(GET_RESP, o, t);
    assert (o + t)[..|o|] == o && (o + t)[|o|..] == t;
  }

  /** A wait that fails before the `k`-th message ends the get with its own code: the client keeps the objects before
      that, and the rest of the reply is not read. */
  lemma {:induction false} LateGet(objs: seq<obj>, x: seq<byte>, k: nat, waits: seq<nat>)
    requires (forall o <- objs :: |o| < U32) && k <= |objs| && k < |waits|
    requires (forall i | 0 <= i < k :: waits[i] == OK) && waits[k] != OK
    ensures Receive(Stream(objs) + x, true, waits) == Got(waits[k], objs[..k], Stream(objs[k..]) + x)
    decreases k
  {
    hide Frame, ReadHeader, Receive;
    if k == 0 {
      assert objs[0..] == objs;
      LateAtOnce(Stream(objs) + x, waits);
    } else {
      var o := objs[0];
      var t: seq<byte> := Stream(objs[1..]) + x;
      Grouped(Frame(GET_RESP, o), Stream(objs[1..]), x);
      ReceiveFirst(o, t, waits);
      LateGet(objs[1..], x, k - 1, waits[1..]);
      assert objs[..k] == [o] + objs[1..][..k - 1] && objs[k..] == objs[1..][k - 1..];
    }
  }

  lemma LateAtOnce(s: seq<byte>, waits: seq<nat>)
    requires waits != [] && waits[0] != OK
    ensures Receive(s, true, waits) == Got(waits[0], [], s)
  {
  }

  // ---- COMMIT ----

  /** What a handler leaves behind of a change: its verdict and the two lists of the transaction. */
  datatype Handled = Handled(rc: nat, changes: seq<Option<obj>>, prevs: seq<Option<obj>>)

  /** The handlers that the service finds for a request, if any, and its statistics. */
  datatype Service = Service(get: Option<obj -> Answer>, commit: Option<(obj, Option<obj>) -> Handled>,
                             rollback: Option<obj -> nat>, stats: obj)

  /** Without a handler a get fails, and a commit or a rollback succeeds. */
  function Answered(svc: Service, filter: obj): Answer {
    if svc.get.Some? then svc.get.value(filter) else Answer(ERR, [])
  }

  function Decided(svc: Service, o: obj, pre: Option<obj>): Handled {
    if svc.commit.Some? then svc.commit.value(o, pre)
    else Handled(OK, [Some(o)], if pre.Some? then [pre] else [])
  }

  function Undone(svc: Service, o: obj): nat {
    if svc.rollback.Some? then svc.rollback.value(o) else OK
  }

  /** The object with `rc` as its only return code. */
  function WithCode(o: obj, rc: nat): obj {
    o[..KEY_LEN] + AddAt(Flat(Drop(Parse(Attrs(o)), {RC_ATTR})), [RC_ATTR], Le(rc, CODE_LEN))
  }

  /** The first of each list goes back; an object with an empty key, `blank`, stands in for a previous one. */
  function Outcome(h: Handled, blank: obj): Option<(obj, obj)> {
    var prev := if h.prevs == [] then Some(blank) else h.prevs[0];
    if h.changes == [] || h.changes[0].None? || prev.None? then None
    else Some((WithCode(h.changes[0].value, h.rc), prev.value))
  }

  function CommitRequest(o: obj, pre: Option<obj>): seq<byte> {
    Frame(COMMIT_CHANGE, o) + Frame(COMMIT_PREV, if pre.Some? then pre.value else [])
  }

  function CommitReply(cur: obj, prev: obj): seq<byte> {
    Frame(COMMIT_OBJECT, cur) + Frame(COMMIT_OBJECT, prev)
  }

  /** Whether the service keeps the connection, what it sends and the bytes it has not read. */
  datatype Served = Served(ok: bool, sent: seq<byte>, rest: seq<byte>)

  function ServeGet(s: seq<byte>, len: nat, svc: Service): Served {
    match ReadObject(s, len)
    case None => Served(false, [], Skip(s, len))
    case Some(f) => Served(true, GetReply(Answered(svc, f)), Skip(s, len))
  }

  function ServeCommit(s: seq<byte>, len: nat, svc: Service, blank: obj): Served {
    var o, t := ReadObject(s, len), Skip(s, len);
    if o.None? then Served(false, [], t)
    else
      match ReadHeader(t)
      case None => Served(false, [], [])
      case Some(Msg(op, n, u)) =>
        var pre := ReadObject(u, n);
        if op != COMMIT_PREV then Served(false, [], u)
        else if n > 0 && pre.None? then Served(false, [], Skip(u, n))
        else
          match Outcome(Decided(svc, o.value, pre), blank)
          case None => Served(false, [], Skip(u, n))
          case Some((cur, prev)) => Served(true, CommitReply(cur, prev), Skip(u, n))
  }

  function ServeRevert(s: seq<byte>, len: nat, svc: Service): Served {
    match ReadObject(s, len)
    case None => Served(false, [], Skip(s, len))
    case Some(o) => Served(true, Frame(RETURN_CODE, Le(Undone(svc, o), CODE_LEN)), Skip(s, len))
  }

  function Serve(s: seq<byte>, svc: Service, blank: obj): Served {
    match ReadHeader(s)
    case None => Served(false, [], [])
    case Some(Msg(op, len, t)) =>
      if op == GET then ServeGet(t, len, svc)
      else if op == COMMIT_CHANGE then ServeCommit(t, len, svc, blank)
      else if op == REVERT then ServeRevert(t, len, svc)
      else if op == STATS then Served(true, Frame(STATS, svc.stats), t)
      else Served(true, [], t)
  }

  /** What the client has at the end of a commit. */
  datatype Settled = Settled(rc: nat, cur: obj, pre: Option<obj>, rest: seq<byte>)

  /** The return code carried by an object; `stray` is what lies behind a value too short for one. */
  function Code(o: obj, otherwise: nat, stray: seq<byte>): nat
    requires |stray| >= CODE_LEN
  {
    match Lookup(Attrs(o), [RC_ATTR])
    case None => otherwise
    case Some(v) => Word(v + stray, 0, CODE_LEN)
  }

  /** A previous object of the client's own gives way to the service's only if the latter has a key. */
  function Kept(pre: Option<obj>, prev: obj): Option<obj> {
    if pre.None? || KeySize(prev) > 0 then Some(prev) else pre
  }

  function SettlePrev(s: seq<byte>, cur: obj, pre: Option<obj>, stray: seq<byte>): Settled
    requires |stray| >= CODE_LEN
  {
    match ReadHeader(s)
    case None => Settled(ERR, cur, pre, [])
    case Some(Msg(op, len, t)) =>
      var prev := ReadObject(t, len);
      if op != COMMIT_OBJECT then Settled(ERR, cur, pre, t)
      else if len == 0 then Settled(Code(cur, ERR, stray), cur, pre, t)
      else if prev.None? then Settled(ERR, cur, pre, Skip(t, len))
      else Settled(Code(cur, OK, stray), cur, Kept(pre, prev.value), Skip(t, len))
  }

  function Settle(s: seq<byte>, o: obj, pre: Option<obj>, stray: seq<byte>): Settled
    requires |stray| >= CODE_LEN
  {
    match ReadHeader(s)
    case None => Settled(ERR, o, pre, [])
    case Some(Msg(op, len, t)) =>
      var cur := ReadObject(t, len);
      if op == RETURN_CODE then Settled(ReadCode(ERR, t), o, pre, Skip(t, CODE_LEN))
      else if op != COMMIT_OBJECT then Settled(ERR, o, pre, t)
      else if cur.None? then Settled(ERR, o, pre, Skip(t, len))
      else SettlePrev(Skip(t, len), cur.value, pre, stray)
  }

  method HandleCommit(inp: Channel, out: Channel, len: nat, svc: Service, blank: obj) returns (ok: bool)
    requires inp != out
    modifies inp, out
    ensures var r := ServeCommit(old(inp.data), len, svc, blank);
            ok == r.ok && out.data == old(out.data) + r.sent && inp.data == r.rest
  {
    hide ReadHeader, Frame, WithCode, ReadObject, Skip;
    assert out.data + [] == out.data;
    var o := inp.Object(len);
    if o.None? { return false; }
    var m := inp.Header();
    if m.None? || m.value.op != COMMIT_PREV { return false; }
    var pre := None;
    ghost var u := inp.data;
    if m.value.len > 0 {
      pre := inp.Object(m.value.len);
      if pre.None? { return false; }
    } else {
      Nothing(u);
    }
    var h := Decided(svc, o.value, pre);
    if h.prevs == [] {
      h := h.(prevs := [Some(blank)]);
    }
    if h.changes == [] || h.changes[0].None? || h.prevs[0].None? { return false; }
    var cur := WithCode(h.changes[0].value, h.rc);
    ghost var was := out.data;
    out.Send(COMMIT_OBJECT, cur);
    out.Send(COMMIT_OBJECT, h.prevs[0].value);
    Grouped(was, Frame(COMMIT_OBJECT, cur), Frame(COMMIT_OBJECT, h.prevs[0].value));
    return true;
  }

  lemma Nothing(s: seq<byte>)
    ensures ReadObject(s, 0).None? && Skip(s, 0) == s
  {
  }

  /** The service's side of one request. */
  method HandleRequest(inp: Channel, out: Channel, svc: Service, blank: obj) returns (ok: bool)
    requires inp != out
    modifies inp, out
    ensures var r := Serve(old(inp.data), svc, blank);
            ok == r.ok && out.data == old(out.data) + r.sent && inp.data == r.rest
  {
    hide ReadHeader, ReadObject, Skip, GetReply, ServeCommit, Frame, Le;
    assert out.data + [] == out.data;
    var m := inp.Header();
    if m.None? { return false; }
    if m.value.op == GET {
      var f := inp.Object(m.value.len);
      if f.None? { return false; }
      SendResults(Answered(svc, f.value), out);
    } else if m.value.op == COMMIT_CHANGE {
      ok := HandleCommit(inp, out, m.value.len, svc, blank);
      return;
    } else if m.value.op == REVERT {
      var o := inp.Object(m.value.len);
      if o.None? { return false; }
      out.Send(RETURN_CODE, Le(Undone(svc, o.value), CODE_LEN));
    } else if m.value.op == STATS {
      out.Send(STATS, svc.stats);
    }
    return true;
  }

  /** The client's side of a commit, once the request is sent. */
  method ProcessCommit(ch: Channel, o: obj, pre: Option<obj>, stray: seq<byte>)
    returns (rc: nat, cur: obj, prev: Option<obj>)
    requires |stray| >= CODE_LEN
    modifies ch
    ensures Settle(old(ch.data), o, pre, stray) == Settled(rc, cur, prev, ch.data)
  {
    hide ReadHeader, ReadObject, Skip, Code, ReadCode, KeySize;
    rc, cur, prev := ERR, o, pre;
    var m := ch.Header();
    if m.None? { return; }
    if m.value.op == COMMIT_OBJECT {
      var c := ch.Object(m.value.len);
      if c.None? { return; }
      cur := c.value;
      m := ch.Header();
      if m.None? || m.value.op != COMMIT_OBJECT { return; }
      if m.value.len > 0 {
        var q := ch.Object(m.value.len);
        if q.None? { return; }
        if prev.None? || KeySize(q.value) > 0 {
          prev := q;
        }
        rc := OK;
      }
      rc := Code(cur, rc, stray);
    } else if m.value.op == RETURN_CODE {
      rc := ch.Code(rc);
    }
  }

  // ---- whole exchanges ----

  /** A get request and its reply: each side reads exactly what the other wrote (`x` and `y` are whatever
      follows), and the client ends up with the handler's return code and, when that is OK, with the results
      that are not holes, in order. */
  lemma GetRoundTrip(filter: obj, svc: Service, blank: obj, x: seq<byte>, y: seq<byte>, timed: bool)
    requires |filter| < U32 && Sendable(Answered(svc, filter))
    ensures var a := Answered(svc, filter);
            && Serve(Frame(GET, filter) + x, svc, blank) == Served(true, GetReply(a), x)
            && Receive(GetReply(a) + y, timed, []) == Got(a.rc, if a.rc == OK then Objects(a.results) else [], y)
  {
    hide Frame, ReadHeader, ReadCode, Le;
    var a := Answered(svc, filter);
    WholeFrameReads(GET, filter, x);
    assert (filter + x)[..|filter|] == filter && (filter + x)[|filter|..] == x;
    if a.rc == OK {
      ObjectsFit(a.results);
      StreamReads(Objects(a.results), y, timed);
    } else {
      var c := Le(a.rc, CODE_LEN);
      WholeFrameReads(RETURN_CODE, c, y);
      CodeReads(if timed then OK else ERR, a.rc, y);
      assert (c + y)[CODE_LEN..] == y;
    }
  }

  /** A reply that breaks off after `n` bytes.  Of a successful one the client keeps the objects that came whole, and
      it reports success if and only if a timeout was set.  Of a failure it reports what it began with if no byte of
      the code came, and otherwise the bytes of the code that came, so that it reports success if those are zero. */
  lemma GetCut(a: Answer, n: nat, timed: bool)
    requires Sendable(a) && n < |GetReply(a)|
    ensures var start := if timed then OK else ERR;
            Receive(GetReply(a)[..n], timed, []) ==
            if a.rc == OK then Got(start, Arrived(Objects(a.results), n), [])
            else Got(if n <= MSG_HDR then start else a.rc % Pow256(n - MSG_HDR), [], [])
  {
    hide Frame, Le, ReadCode, Pow256;
    if a.rc == OK {
      ObjectsFit(a.results);
      StreamCut(Objects(a.results), n, timed);
    } else {
      var c, start := Le(a.rc, CODE_LEN), if timed then OK else ERR;
      if n >= MSG_HDR {
        var m := n - MSG_HDR;
        FrameReads(RETURN_CODE, c, [], n);
        assert Frame(RETURN_CODE, c) + [] == Frame(RETURN_CODE, c) && c + [] == c;
        CodeCut(start, a.rc, m);
      }
    }
  }

  /** When a reply that broke off is taken for a success. */
  lemma GetCutSucceeds(a: Answer, n: nat, timed: bool)
    requires Sendable(a) && n < |GetReply(a)|
    ensures Receive(GetReply(a)[..n], timed, []).rc == OK <==>
            if a.rc == OK || n <= MSG_HDR then timed else a.rc % Pow256(n - MSG_HDR) == 0
  {
    hide Receive, GetReply, Pow256;
    GetCut(a, n, timed);
  }

  /** A failure taken for a success without any timeout: the first byte of the code came, and it is zero. */
  lemma FailureTakenForSuccess()
    ensures var a := Answer(256, []);
            && Sendable(a) && a.rc != OK && MSG_HDR + 1 < |GetReply(a)|
            && Receive(GetReply(a)[..MSG_HDR + 1], false, []).rc == OK
  {
    hide Receive, Frame, Le;
    assert Pow256(1) == 256;
    GetCutSucceeds(Answer(256, []), MSG_HDR + 1, false);
  }

  /** A return code of which `m` bytes came. */
  lemma CodeCut(start: nat, rc: nat, m: nat)
    requires start <= 1 && rc < U32 && m < CODE_LEN
    ensures ReadCode(start, Le(rc, CODE_LEN)[..m]) == if m == 0 then start else rc % Pow256(m)
  {
    hide Le, Word, Pow256;
    var w, z := Le(rc, CODE_LEN), Le(start, CODE_LEN);
    FourBytes(rc);
    FourBytes(start);
    assert start / 256 == 0;
    var s := w[..m] + z[m..];
    FourWord(s);
    LowBytes(rc);
    assert s == if m == 0 then z else if m == 1 then [w[0], 0, 0, 0] else if m == 2 then [w[0], w[1], 0, 0]
                else [w[0], w[1], w[2], 0];
  }

  lemma FourBytes(n: nat)
    ensures Le(n, 4) == [n % 256, n / 256 % 256, n / 256 / 256 % 256, n / 256 / 256 / 256 % 256]
  {
    assert Le(n / 256 / 256 / 256, 1) == [n / 256 / 256 / 256 % 256];
    assert Le(n / 256 / 256, 2) == [n / 256 / 256 % 256] + Le(n / 256 / 256 / 256, 1);
    assert Le(n / 256, 3) == [n / 256 % 256] + Le(n / 256 / 256, 2);
    assert Le(n, 4) == [n % 256] + Le(n / 256, 3);
  }

  lemma FourWord(s: seq<byte>)
    requires |s| == 4
    ensures Word(s, 0, 4) == s[0] as int + 256 * (s[1] as int + 256 * (s[2] as int + 256 * s[3] as int))
  {
    assert Word(s, 3, 1) == s[3];
    assert Word(s, 2, 2) == s[2] + 256 * Word(s, 3, 1);
    assert Word(s, 1, 3) == s[1] + 256 * Word(s, 2, 2);
  }

  lemma LowBytes(n: nat)
    ensures Pow256(1) == 256 && Pow256(2) == 65536 && Pow256(3) == 16777216
    ensures n % 65536 == n % 256 + 256 * (n / 256 % 256)
    ensures n % 16777216 == n % 256 + 256 * (n / 256 % 256 + 256 * (n / 256 / 256 % 256))
  {
    assert Pow256(3) == 256 * Pow256(2) == 256 * 256 * Pow256(1);
  }

  /** An object that carries a return code: the key and all other attributes are the ones it had. */
  lemma WithCodeLaw(o: obj, rc: nat)
    requires Exact(Attrs(o)) && rc < U32 && |WithCode(o, rc)| < U32
    ensures var w := WithCode(o, rc);
            && w[..KEY_LEN] == o[..KEY_LEN]
            && Lookup(Attrs(w), [RC_ATTR]) == Some(Le(rc, CODE_LEN))
            && Exact(Attrs(w))
            && Drop(Parse(Attrs(w)), {RC_ATTR}) == Drop(Parse(Attrs(o)), {RC_ATTR})
  {
    hide Le, Parse;
    var w := WithCode(o, rc);
    var run := Drop(Parse(Attrs(o)), {RC_ATTR});
    var b, d := Flat(run), Le(rc, CODE_LEN);
    ParseDrop(Attrs(o), {RC_ATTR});
    FlatParse(Attrs(o));
    DropStorable(Parse(Attrs(o)), {RC_ATTR});
    DropGone(Parse(Attrs(o)), RC_ATTR);
    assert Exact(b);
    assert Attrs(w) == AddAt(b, [RC_ATTR], d);
    assert [RC_ATTR][0..] == [RC_ATTR];
    AddThenLookup(b, [RC_ATTR], d);
    var e := Header(RC_ATTR, |d|) + d;
    assert AddAt(b, [RC_ATTR], d) == b + e;
    OneAttr(RC_ATTR, d);
    ParseAppend(b, e);
    JoinEndsComplete(run, RC_ATTR, d);
  }

  lemma OneAttr(tag: nat, v: seq<byte>)
    requires tag < U64 && |v| < U64
    ensures Parse(Header(tag, |v|) + v) == Attr(tag, v, End([]))
  {
    var b := Header(tag, |v|) + v;
    assert b == b + [];
    AttrReads(tag, v, []);
    assert !Valid([]);
  }

  lemma {:induction r} DropGone(r: Run, tag: nat)
    ensures Seek(Drop(r, {tag}), tag).None?
  {
  }

  lemma {:induction false} JoinEndsComplete(r: Run, tag: nat, v: seq<byte>)
    requires Seek(r, tag).None? && Complete(r)
    ensures Complete(Join(r, Attr(tag, v, End([]))))
    ensures Drop(Join(r, Attr(tag, v, End([]))), {tag}) == r
  {
    if r.Attr? {
      JoinEndsComplete(r.rest, tag, v);
    }
  }

  /** Both frames of a message pair, the first read whole. */
  lemma FirstFrame(op: nat, o: obj, t: seq<byte>)
    requires op < U32 && |o| < U32
    ensures ReadHeader(Frame(op, o) + t) == Some(Msg(op, |o|, o + t))
    ensures ReadObject(o + t, |o|) == Some(o) && Skip(o + t, |o|) == t
  {
    hide Frame, ReadHeader;
    WholeFrameReads(op, o, t);
    assert (o + t)[..|o|] == o && (o + t)[|o|..] == t;
  }

  lemma RequestRead(o: obj, pre: Option<obj>, svc: Service, blank: obj, x: seq<byte>)
    requires |o| < U32 && Fits(pre)
    ensures Serve(CommitRequest(o, pre) + x, svc, blank) ==
            match Outcome(Decided(svc, o, pre), blank)
            case None => Served(false, [], x)
            case Some((cur, prev)) => Served(true, CommitReply(cur, prev), x)
  {
    hide Frame, ReadHeader, ReadObject, Skip, Outcome, Decided, CommitReply;
    var p := if pre.Some? then pre.value else [];
    var t := Frame(COMMIT_PREV, p) + x;
    Grouped(Frame(COMMIT_CHANGE, o), Frame(COMMIT_PREV, p), x);
    FirstFrame(COMMIT_CHANGE, o, t);
    if pre.Some? {
      FirstFrame(COMMIT_PREV, pre.value, x);
    } else {
      WholeFrameReads(COMMIT_PREV, [], x);
      assert [] + x == x;
      Nothing(x);
    }
  }

  lemma ReplyRead(o: obj, pre: Option<obj>, cur: obj, prev: obj, y: seq<byte>, stray: seq<byte>)
    requires |cur| < U32 && |prev| < U32 && |stray| >= CODE_LEN
    ensures Settle(CommitReply(cur, prev) + y, o, pre, stray) ==
            Settled(Code(cur, OK, stray), cur, Kept(pre, prev), y)
  {
    hide Frame, ReadHeader, ReadObject, Skip, Code, Kept;
    Grouped(Frame(COMMIT_OBJECT, cur), Frame(COMMIT_OBJECT, prev), y);
    FirstFrame(COMMIT_OBJECT, cur, Frame(COMMIT_OBJECT, prev) + y);
    FirstFrame(COMMIT_OBJECT, prev, y);
  }

  lemma ReplySize(cur: obj, prev: obj)
    ensures |CommitReply(cur, prev)| == 2 * MSG_HDR + |cur| + |prev|
  {
    hide Frame;
  }

  /** A commit request and its reply: each side reads exactly what the other wrote, and the client ends up with the object
      the handler left, with the previous object, the service's unless the client brought its own and the service's
      has no key, and with the return code that it finds in the object.  That is the handler's if the attributes of the
      object are whole. */
  lemma CommitRoundTrip(o: obj, pre: Option<obj>, svc: Service, blank: obj,
                        x: seq<byte>, y: seq<byte>, stray: seq<byte>)
    requires |o| < U32 && Fits(pre) && |stray| >= CODE_LEN
    requires var h := Decided(svc, o, pre); var r := Outcome(h, blank);
             h.rc < U32 && r.Some? && |r.value.0| < U32 && |r.value.1| < U32
    ensures var h := Decided(svc, o, pre); var (cur, prev) := Outcome(h, blank).value;
            && Serve(CommitRequest(o, pre) + x, svc, blank) == Served(true, CommitReply(cur, prev), x)
            && Settle(CommitReply(cur, prev) + y, o, pre, stray) ==
               Settled(Code(cur, OK, stray), cur, Kept(pre, prev), y)
            && (Exact(Attrs(h.changes[0].value)) ==> Code(cur, OK, stray) == h.rc)
  {
    hide Serve, Settle, Decided, Kept, CommitReply, CommitRequest, Le, Word, Parse;
    var h := Decided(svc, o, pre);
    var (cur, prev) := Outcome(h, blank).value;
    RequestRead(o, pre, svc, blank, x);
    ReplyRead(o, pre, cur, prev, y, stray);
    if Exact(Attrs(h.changes[0].value)) {
      CodeFound(h.changes[0].value, h.rc, stray);
    }
  }

  lemma CodeFound(o: obj, rc: nat, stray: seq<byte>)
    requires Exact(Attrs(o)) && rc < U32 && |WithCode(o, rc)| < U32 && |stray| >= CODE_LEN
    ensures Code(WithCode(o, rc), OK, stray) == rc
  {
    hide Le, Word, Parse, WithCode, Lookup;
    WithCodeLaw(o, rc);
    WordLe([], rc, stray);
    assert [] + Le(rc, 4) + stray == Le(rc, 4) + stray;
  }

  /** An object whose attributes end in a header without its value: the return code put behind becomes that value, and the
      client, which finds none, reports success whatever the handler returned. */
  lemma CodeSwallowed(key: seq<byte>, t: nat, rc: nat, stray: seq<byte>)
    requires |key| == KEY_LEN && t != RC_ATTR && t < U64 && rc < U32 && |stray| >= CODE_LEN
    ensures var o: obj := key + Header(t, HDR + CODE_LEN); Code(WithCode(o, rc), OK, stray) == OK
  {
    hide Le, Word, Header;
    var h, d := Header(t, HDR + CODE_LEN), Le(rc, CODE_LEN);
    var o: obj := key + h;
    assert Attrs(o) == h;
    HeaderAlone(t, HDR + CODE_LEN);
    var e := Header(RC_ATTR, |d|) + d;
    assert [RC_ATTR][0..] == [RC_ATTR];
    assert AddAt(h, [RC_ATTR], d) == h + e;
    assert WithCode(o, rc) == key + (h + e);
    assert Attrs(WithCode(o, rc)) == h + e;
    OneAttr(t, e);
    assert Seek(Attr(t, e, End([])), RC_ATTR) == Seek(End([]), RC_ATTR) == None;
  }

  lemma HeaderAlone(t: nat, n: nat)
    requires t < U64 && 0 < n < U64
    ensures Parse(Header(t, n)) == End(Header(t, n)) && Flat(Drop(Parse(Header(t, n)), {RC_ATTR})) == Header(t, n)
  {
    HeaderReads(t, n, []);
    assert Header(t, n) + [] == Header(t, n);
  }

  /** A handler that leaves no object behind: the service closes the connection, and the client reports a
      failure and keeps what it had. */
  lemma CommitRefused(o: obj, pre: Option<obj>, svc: Service, blank: obj, x: seq<byte>, stray: seq<byte>)
    requires |o| < U32 && Fits(pre) && |stray| >= CODE_LEN
    requires Outcome(Decided(svc, o, pre), blank).None?
    ensures Serve(CommitRequest(o, pre) + x, svc, blank) == Served(false, [], x)
    ensures Settle([], o, pre, stray) == Settled(ERR, o, pre, [])
  {
    hide Serve, Decided, Outcome, CommitRequest;
    RequestRead(o, pre, svc, blank, x);
  }

  /** A reply that breaks off anywhere: the client reports a failure and keeps its previous object, but the
      changed object is already exchanged if it came whole. */
  lemma CommitCut(o: obj, pre: Option<obj>, cur: obj, prev: obj, n: nat, stray: seq<byte>)
    requires |cur| < U32 && |prev| < U32 && |stray| >= CODE_LEN
    requires n < |CommitReply(cur, prev)|
    ensures Settle(CommitReply(cur, prev)[..n], o, pre, stray) ==
            Settled(ERR, if n < MSG_HDR + |cur| then o else cur, pre, [])
  {
    hide Frame, Word, Code, Kept;
    var x := Frame(COMMIT_OBJECT, prev);
    if n >= MSG_HDR + |cur| {
      CutFrame(COMMIT_OBJECT, cur, x, n);
      var m := n - MSG_HDR - |cur|;
      if m >= MSG_HDR {
        FrameReads(COMMIT_OBJECT, prev, [], m);
        assert x + [] == x && prev + [] == prev;
      }
    } else if n >= MSG_HDR {
      FrameReads(COMMIT_OBJECT, cur, x, n);
    }
  }

  /** However much of a service's answer arrives: a success brings a previous object. */
  lemma OkLeavesPrev(o: obj, cur: obj, prev: obj, n: nat, stray: seq<byte>)
    requires |cur| < U32 && |prev| < U32 && |stray| >= CODE_LEN && n <= |CommitReply(cur, prev)|
    ensures var s := Settle(CommitReply(cur, prev)[..n], o, None, stray); s.rc == OK ==> s.pre.Some?
  {
    hide Settle, CommitReply, Code;
    var r := CommitReply(cur, prev);
    if n < |r| {
      CommitCut(o, None, cur, prev, n, stray);
    } else {
      ReplyRead(o, None, cur, prev, [], stray);
      assert r[..n] == r + [];
    }
  }

  /** Client and service run together on a get. */
  method RunGet(filter: obj, svc: Service, blank: obj, timed: bool, list: seq<obj>) returns (rc: nat, objs: seq<obj>)
    requires |filter| < U32 && Sendable(Answered(svc, filter))
    ensures var a := Answered(svc, filter);
            && rc == a.rc
            && objs == list + if a.rc == OK then Objects(a.results) else []
  {
    hide Frame, Serve, Receive, GetReply, Objects, Answered;
    var up := new Channel();
    var down := new Channel();
    up.Send(GET, filter);
    var _ := HandleRequest(up, down, svc, blank);
    rc, objs := ProcessGet(down, timed, [], list);
    GetRoundTrip(filter, svc, blank, [], [], timed);
    AddNothing(Frame(GET, filter), GetReply(Answered(svc, filter)));
  }

  lemma AddNothing(a: seq<byte>, b: seq<byte>)
    ensures a + [] == a == [] + a && b + [] == b == [] + b
  {
  }

  /** Client and service run together on a commit. */
  method RunCommit(o: obj, pre: Option<obj>, svc: Service, blank: obj, stray: seq<byte>)
    returns (rc: nat, cur: obj, prev: Option<obj>)
    requires |o| < U32 && Fits(pre) && |stray| >= CODE_LEN
    requires var h := Decided(svc, o, pre); var r := Outcome(h, blank);
             h.rc < U32 && r.Some? && |r.value.0| < U32 && |r.value.1| < U32
    ensures var h := Decided(svc, o, pre); var (c, p) := Outcome(h, blank).value;
            && cur == c && prev == Kept(pre, p) && rc == Code(c, OK, stray)
            && (Exact(Attrs(h.changes[0].value)) ==> rc == h.rc)
  {
    hide Frame, Serve, Settle, CommitReply, Kept, Decided, WithCode, Parse, Code;
    var up := new Channel();
    var down := new Channel();
    up.Send(COMMIT_CHANGE, o);
    up.Send(COMMIT_PREV, if pre.Some? then pre.value else []);
    ghost var r := Outcome(Decided(svc, o, pre), blank).value;
    var _ := HandleRequest(up, down, svc, blank);
    rc, cur, prev := ProcessCommit(down, o, pre, stray);
    CommitRoundTrip(o, pre, svc, blank, [], [], stray);
    AddNothing(Frame(COMMIT_CHANGE, o), CommitReply(r.0, r.1));
    AddNothing(CommitRequest(o, pre), []);
  }

  // ---- REVERT ----

  /** The client's side of a rollback: a return code, and the bytes not read. */
  function Reverted(s: seq<byte>): (nat, seq<byte>) {
    match ReadHeader(s)
    case None => (ERR, [])
    case Some(Msg(op, _, t)) => if op == RETURN_CODE then (ReadCode(ERR, t), Skip(t, CODE_LEN)) else (ERR, t)
  }

  method ProcessRevert(ch: Channel) returns (rc: nat)
    modifies ch
    ensures (rc, ch.data) == Reverted(old(ch.data))
  {
    hide ReadHeader, ReadCode, Skip;
    rc := ERR;
    var m := ch.Header();
    if m.Some? && m.value.op == RETURN_CODE {
      rc := ch.Code(rc);
    }
  }

  /** The client gets the return code of the rollback handler, and both sides read exactly what was sent. */
  lemma RevertRoundTrip(o: obj, svc: Service, blank: obj, x: seq<byte>, y: seq<byte>)
    requires |o| < U32 && Undone(svc, o) < U32
    ensures var reply := Frame(RETURN_CODE, Le(Undone(svc, o), CODE_LEN));
            && Serve(Frame(REVERT, o) + x, svc, blank) == Served(true, reply, x)
            && Reverted(reply + y) == (Undone(svc, o), y)
  {
    hide Frame, ReadHeader, ReadCode, Le;
    FirstFrame(REVERT, o, x);
    var c := Le(Undone(svc, o), CODE_LEN);
    WholeFrameReads(RETURN_CODE, c, y);
    CodeReads(ERR, Undone(svc, o), y);
    assert (c + y)[CODE_LEN..] == y;
  }
}
