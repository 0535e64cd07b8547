/** Committing a list of changes one after the other, and undoing those made when one fails. */
module Transaction {
  import opened Bytes
  import Tlv
  import TlvPath
  import Wire

  const OK: int := 0
  const ERR: int := 1

  /** What an object says of itself: it may be skipped on failure, and it is to be announced. */
  datatype Flags = Flags(skippable: bool, announced: bool)

  /** A change goes to the database or to a service. */
  datatype Change = Change(service: bool, flags: Flags)

  /** How the commit of a change ends, whether it gave the object as it was before, whether that has a key, and what the
      object says that a service put in the place of the change. */
  datatype Reply = Reply(rc: int, prevSent: bool, prevKeyed: bool, back: Option<Flags>)

  datatype Action = Commit(ix: nat) | Publish(ix: nat) | Revert(ix: nat)

  datatype Request = Request(changes: seq<Change>, reply: nat -> Reply, revertRc: nat -> int)

  /** The flags are read after the commit, from the object that is then in the list. */
  function Now(q: Request, i: nat): Flags
    requires i < |q.changes|
  {
    if q.changes[i].service && q.reply(i).back.Some? then q.reply(i).back.value else q.changes[i].flags
  }

  /** Change `i` stops the transaction. */
  predicate Stops(q: Request, i: nat)
    requires i < |q.changes|
  {
    q.reply(i).rc != OK && !Now(q, i).skippable
  }

  /** The first change at or after `i` that does, or the number of changes. */
  function Stop(q: Request, i: nat): (k: nat)
    requires i <= |q.changes|
    ensures i <= k <= |q.changes|
    ensures k < |q.changes| ==> Stops(q, k)
    ensures forall j | i <= j < k :: !Stops(q, j)
    decreases |q.changes| - i
  {
    if i == |q.changes| || Stops(q, i) then i else Stop(q, i + 1)
  }

  /** The actions that committing the first `n` changes takes. */
  function Forward(q: Request, n: nat): seq<Action>
    requires n <= |q.changes|
  {
    if n == 0 then []
    else
      var i := n - 1;
      Forward(q, i) + [Commit(i)] +
      if q.reply(i).rc == OK && q.changes[i].service && Now(q, i).announced then [Publish(i)] else []
  }

  /** The first `n` changes undone, last one first. */
  function Backward(n: nat): seq<Action> {
    if n == 0 then [] else [Revert(n - 1)] + Backward(n - 1)
  }

  // ---- the previous objects ----

  /** The list of previous objects after change `i` was committed; an entry names the change whose previous object it
      holds.  The database appends an object when there is none at `i`, and otherwise loads the one there, unless
      the change creates something; a service's answer is stored at `i`, or replaces what is there if it has a key. */
  function Stored(q: Request, prev: seq<Option<nat>>, i: nat): seq<Option<nat>>
    requires i < |q.changes|
  {
    var missing := i >= |prev| || prev[i].None?;
    var r := q.reply(i);
    if !q.changes[i].service then
      (if missing then prev + [Some(i)] else if r.prevSent then prev[i := Some(i)] else prev)
    else if !r.prevSent || (!missing && !r.prevKeyed) then prev
    else if i < |prev| then prev[i := Some(i)]
    else prev + seq(i - |prev|, _ => None) + [Some(i)]
  }

  function StoredUpTo(q: Request, prev: seq<Option<nat>>, n: nat): seq<Option<nat>>
    requires n <= |q.changes|
  {
    if n == 0 then prev else Stored(q, StoredUpTo(q, prev, n - 1), n - 1)
  }

  /** Committing change `i` leaves its previous object behind. */
  predicate Leaves(q: Request, i: nat)
    requires i < |q.changes|
  {
    !q.changes[i].service || q.reply(i).prevSent
  }

  ghost predicate Aligned(prev: seq<Option<nat>>, n: nat) {
    n <= |prev| && forall i | 0 <= i < n :: prev[i] == Some(i)
  }

  /** No entry is stored for a change before its turn. */
  lemma {:induction false} OnlyPast(q: Request, n: nat)
    requires n <= |q.changes|
    ensures forall i | 0 <= i < |StoredUpTo(q, [], n)| && StoredUpTo(q, [], n)[i].Some? ::
              StoredUpTo(q, [], n)[i].value < n && Leaves(q, StoredUpTo(q, [], n)[i].value)
  {
    if n > 0 {
      OnlyPast(q, n - 1);
    }
  }

  lemma {:induction false} AllLeave(q: Request, n: nat)
    requires n <= |q.changes| && forall i | 0 <= i < n :: Leaves(q, i)
    ensures |StoredUpTo(q, [], n)| == n && Aligned(StoredUpTo(q, [], n), n)
  {
    if n > 0 {
      AllLeave(q, n - 1);
      assert Leaves(q, n - 1);
    }
  }

  /** From an empty list, every rolled-back change finds its own previous object exactly when every change
      committed before the failure left one. */
  lemma PrevAligned(q: Request, n: nat)
    requires n <= |q.changes|
    ensures Aligned(StoredUpTo(q, [], n), n) <==> forall i | 0 <= i < n :: Leaves(q, i)
  {
    OnlyPast(q, n);
    var p := StoredUpTo(q, [], n);
    if Aligned(p, n) {
      forall i | 0 <= i < n ensures Leaves(q, i) {
        assert p[i] == Some(i);
      }
    }
    if forall i | 0 <= i < n :: Leaves(q, i) {
      AllLeave(q, n);
    }
  }

  /** A skipped service failure, then a database change, then a failure: the rollback of the first change is
      given the object of the second, and that of the second finds none. */
  lemma PrevMisplaced()
    ensures var q := Request([Change(true, Flags(true, false)), Change(false, Flags(false, false)), Change(false, Flags(false, false))],
                             i => Reply(if i == 1 then OK else ERR, false, false, None), _ => OK);
            Stop(q, 0) == 2 && StoredUpTo(q, [], 2) == [Some(1)]
  {
    var q := Request([Change(true, Flags(true, false)), Change(false, Flags(false, false)), Change(false, Flags(false, false))],
                     i => Reply(if i == 1 then OK else ERR, false, false, None), _ => OK);
    assert Stop(q, 2) == 2 && Stop(q, 1) == 2;
    assert StoredUpTo(q, [], 1) == [];
  }

  /** An exchange with a service: the object sent, what the service answers, and how much of that arrives. */
  datatype Exchange = Exchange(o: Wire.obj, cur: Wire.obj, prev: Wire.obj, n: nat, stray: seq<byte>)

  ghost predicate Possible(x: Exchange) {
    && |x.cur| < U32 && |x.prev| < U32 && |x.stray| >= Wire.CODE_LEN
    && x.n <= |Wire.CommitReply(x.cur, x.prev)|
  }

  function Result(x: Exchange): Wire.Settled
    requires |x.stray| >= Wire.CODE_LEN && x.n <= |Wire.CommitReply(x.cur, x.prev)|
  {
    Wire.Settle(Wire.CommitReply(x.cur, x.prev)[..x.n], x.o, None, x.stray)
  }

  /** The reply is what the client makes of the exchange, without a previous object of its own. */
  ghost predicate Replied(x: Exchange, r: Reply) {
    && Possible(x)
    && r.rc == Result(x).rc && r.prevSent == Result(x).pre.Some?
    && (r.back.None? ==> Result(x).cur == x.o)
    && (r.back.Some? ==> r.back.value.skippable == Continues(Result(x).cur))
  }

  /** The attribute by which an object asks to be skipped on failure. */
  const CONTINUE_ATTR: nat := 131116

  predicate Continues(o: Wire.obj) {
    match TlvPath.Lookup(Wire.Attrs(o), [CONTINUE_ATTR])
    case None => false
    case Some(v) => v != [] && v[0] != 0
  }

  /** The flag that counts is the caller's only until the service's object has arrived. */
  lemma FlagRead(x: Exchange)
    requires Possible(x)
    ensures Continues(Result(x).cur) == Continues(if x.n < Wire.MSG_HDR + |x.cur| then x.o else x.cur)
  {
    hide Wire.Settle, Wire.CommitReply, Wire.Code, Continues;
    var r := Wire.CommitReply(x.cur, x.prev);
    Wire.ReplySize(x.cur, x.prev);
    if x.n < |r| {
      Wire.CommitCut(x.o, None, x.cur, x.prev, x.n, x.stray);
    } else {
      Wire.ReplyRead(x.o, None, x.cur, x.prev, [], x.stray);
      assert r[..x.n] == r + [];
    }
  }

  /** The service sends the flag of the object that the handler left: the return code is put beside it. */
  lemma FlagSent(o: Wire.obj, rc: nat)
    requires Tlv.Exact(Wire.Attrs(o)) && rc < U32 && |Wire.WithCode(o, rc)| < U32
    ensures Continues(Wire.WithCode(o, rc)) == Continues(o)
  {
    hide Wire.WithCode, Tlv.Parse;
    Wire.WithCodeLaw(o, rc);
    var a, b := Tlv.Parse(Wire.Attrs(o)), Tlv.Parse(Wire.Attrs(Wire.WithCode(o, rc)));
    SeekBeside(a, Wire.RC_ATTR, CONTINUE_ATTR);
    SeekBeside(b, Wire.RC_ATTR, CONTINUE_ATTR);
  }

  lemma {:induction r} SeekBeside(r: Tlv.Run, t: nat, u: nat)
    requires t != u
    ensures Tlv.Seek(Tlv.Drop(r, {t}), u) == Tlv.Seek(r, u)
  {
  }

  /** A change that was to be skipped on failure, and a service that fails and sends an object without that flag back:
      the transaction ends there. */
  lemma FlagLost()
    ensures var q := Request([Change(true, Flags(true, false))],
                             _ => Reply(ERR, false, false, Some(Flags(false, false))), _ => OK);
            Stop(q, 0) == 0
  {
  }

  /** The request as if the services sent no objects back. */
  function Own(q: Request): Request {
    q.(reply := (i: nat) => q.reply(i).(back := None))
  }

  /** The transaction stops where the callers' own flags say if and only if each failure that was passed over was
      flagged by the caller, and the one that stops it was not. */
  lemma FlagsHonoured(q: Request)
    ensures var k := Stop(q, 0);
            Stop(Own(q), 0) == k <==>
            && (forall i | 0 <= i < k && q.reply(i).rc != OK :: q.changes[i].flags.skippable)
            && (k < |q.changes| ==> !q.changes[k].flags.skippable)
  {
    var k, m := Stop(q, 0), Stop(Own(q), 0);
    forall i | 0 <= i < |q.changes|
      ensures Stops(Own(q), i) <==> q.reply(i).rc != OK && !q.changes[i].flags.skippable
    {
    }
  }

  /** If the services answer as they do, and no failure was skipped, then every change rolled back finds its own
      previous object. */
  lemma NothingSkipped(q: Request)
    requires var k := Stop(q, 0);
             forall i | 0 <= i < k :: q.reply(i).rc == OK && (q.changes[i].service ==> exists x :: Replied(x, q.reply(i)))
    ensures var k := Stop(q, 0); Aligned(StoredUpTo(q, [], if k < |q.changes| then k + 1 else k), k)
  {
    hide Wire.Settle, Wire.CommitReply;
    var k := Stop(q, 0);
    forall i | 0 <= i < k ensures Leaves(q, i) {
      if q.changes[i].service {
        var x :| Replied(x, q.reply(i));
        Wire.OkLeavesPrev(x.o, x.cur, x.prev, x.n, x.stray);
      }
    }
    AllLeave(q, k);
    if k < |q.changes| {
      StoredBehind(q, StoredUpTo(q, [], k), k);
    }
  }

  lemma StoredBehind(q: Request, prev: seq<Option<nat>>, i: nat)
    requires i < |q.changes| && Aligned(prev, i)
    ensures Aligned(Stored(q, prev, i), i)
  {
    var s := Stored(q, prev, i);
    forall j | 0 <= j < i ensures s[j] == Some(j) {
      assert prev[j] == Some(j);
    }
  }

  // ---- the code ----

  /** The previous object of one change. */
  method Store(q: Request, prev: seq<Option<nat>>, ix: nat) returns (next: seq<Option<nat>>)
    requires ix < |q.changes|
    ensures next == Stored(q, prev, ix)
  {
    next := prev;
    var had := ix < |prev| && prev[ix].Some?;
    if !q.changes[ix].service {
      if !had {
        next := next + [Some(ix)];
      } else if q.reply(ix).prevSent {
        next := next[ix := Some(ix)];
      }
    } else if q.reply(ix).prevSent {
      if had {
        if q.reply(ix).prevKeyed {
          next := next[ix := Some(ix)];
        }
      } else {
        if |next| <= ix {
          next := next + seq(ix + 1 - |next|, _ => None);
        }
        next := next[ix := Some(ix)];
        if |prev| <= ix {
          assert next == prev + seq(ix - |prev|, _ => None) + [Some(ix)];
        }
      }
    }
  }

  /** All changes are committed if none stops the transaction.  Otherwise those before the first that does are
      undone in reverse order, and nothing is announced about it. */
  method CommitAll(q: Request, prev0: seq<Option<nat>>) returns (rc: int, trace: seq<Action>, prev: seq<Option<nat>>)
    ensures var k := Stop(q, 0);
            && (rc == OK <==> k == |q.changes|)
            && (k < |q.changes| ==> rc == q.reply(k).rc)
            && trace == (if k == |q.changes| then Forward(q, k) else Forward(q, k) + [Commit(k)] + Backward(k))
            && prev == StoredUpTo(q, prev0, if k == |q.changes| then k else k + 1)
  {
    rc, trace, prev := OK, [], prev0;
    var ix, mx := 0, |q.changes|;
    while ix < mx
      invariant ix <= mx == |q.changes| && rc == OK && Stop(q, 0) == Stop(q, ix)
      invariant trace == Forward(q, ix) && prev == StoredUpTo(q, prev0, ix)
    {
      prev := Store(q, prev, ix);
      rc := q.reply(ix).rc;
      trace := trace + [Commit(ix)];
      if rc != OK {
        if !Now(q, ix).skippable {
          break;
        }
        rc := OK;
      } else if q.changes[ix].service && Now(q, ix).announced {
        trace := trace + [Publish(ix)];
      }
      ix := ix + 1;
    }
    if rc != OK {
      ghost var done := trace;
      mx := ix;
      while mx > 0
        invariant 0 <= mx <= ix && done + Backward(ix) == trace + Backward(mx)
      {
        var at := mx - 1;
        trace := trace + [Revert(at)];
        // The result is only logged, and the event that is to follow is guarded by rc == OK, which never
        // holds here.
        var _ := q.revertRc(at);
        mx := mx - 1;
      }
    }
  }

  // ---- undoing a database operation ----

  datatype Oper = Null | Delete | Create | Set | Action

  /** The two tests are made one after the other on the same variable. */
  function RollbackOper(op: Oper): Oper {
    var op' := if op == Delete then Create else op;
    if op' == Create then Delete else op'
  }

  function Inverse(op: Oper): Oper {
    match op
    case Delete => Create
    case Create => Delete
    case _ => op
  }

  /** A deletion is rolled back by another deletion. */
  lemma RollbackOperExact(op: Oper)
    ensures RollbackOper(op) == Inverse(op) <==> op != Delete
  {
  }
}
