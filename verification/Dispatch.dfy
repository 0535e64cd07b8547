/** The table of registered handlers, and which of them a request is given to. */
module Dispatch {
  import opened Bytes

  type Key = seq<nat>

  datatype Op = Read | Write | Rollback

  /** A registration: the key it is for, the functions it has, and when it was made. */
  datatype Handler = Handler(key: Key, offers: set<Op>, when: nat)

  /** Compares the part both keys have; a key that is shorter than what it is compared with never matches. */
  predicate KeyMatches(lhs: Key, rhs: Key, exact: bool)
    ensures KeyMatches(lhs, rhs, exact) <==> if exact then lhs == rhs else rhs <= lhs
  {
    var n := if |lhs| > |rhs| then |rhs| else |lhs|;
    var same := lhs[..n] == rhs[..n];
    if exact && |lhs| != |rhs| then false
    else if |rhs| > |lhs| then false
    else same
  }

  predicate Serves(h: Handler, key: Key, op: Op) {
    op in h.offers && h.key <= key
  }

  // ---- the table ----

  /** A new handler goes in front of the first one whose key is a prefix of its own. */
  function Place(table: seq<Handler>, key: Key): (i: nat)
    ensures i <= |table|
    ensures i < |table| ==> table[i].key <= key
    ensures forall j | 0 <= j < i :: !(table[j].key <= key)
  {
    if table == [] || table[0].key <= key then 0 else 1 + Place(table[1..], key)
  }

  function Inserted(table: seq<Handler>, h: Handler): seq<Handler> {
    var i := Place(table, h.key);
    table[..i] + [h] + table[i..]
  }

  /** The table after the registrations `hs`, in this order. */
  function Registered(hs: seq<Handler>): seq<Handler> {
    if hs == [] then [] else Inserted(Registered(hs[..|hs| - 1]), hs[|hs| - 1])
  }

  /** No key stands before a longer key that it is a prefix of, and of equal keys the newest stands first. */
  ghost predicate Sorted(table: seq<Handler>) {
    forall i, j | 0 <= i < j < |table| ::
      && !(table[i].key < table[j].key)
      && (table[i].key == table[j].key ==> table[i].when > table[j].when)
  }

  /** The registrations are dated in order. */
  ghost predicate Dated(hs: seq<Handler>) {
    forall i | 0 <= i < |hs| :: hs[i].when == i
  }

  lemma PrefixChain(a: Key, b: Key, c: Key)
    requires a <= b && b <= c
    ensures a <= c
  {
    assert a == b[..|a|] == c[..|a|];
  }

  /** Prefixes of one key are prefixes of each other. */
  lemma PrefixesCompare(a: Key, b: Key, c: Key)
    requires a <= c && b <= c
    ensures |a| <= |b| ==> a <= b
  {
    if |a| <= |b| {
      assert a == c[..|a|] == b[..|a|];
    }
  }

  lemma InsertedSorted(table: seq<Handler>, h: Handler)
    requires Sorted(table) && forall x | x in table :: x.when < h.when
    ensures Sorted(Inserted(table, h))
  {
    var p := Place(table, h.key);
    var t := Inserted(table, h);
    assert forall i | 0 <= i < p :: t[i] == table[i];
    assert forall i | p < i < |t| :: t[i] == table[i - 1];
    forall i, j | 0 <= i < j < |t|
      ensures !(t[i].key < t[j].key) && (t[i].key == t[j].key ==> t[i].when > t[j].when)
    {
      if i == p {
        assert t[j] in table && table[p].key <= h.key;
        if h.key < t[j].key {
          PrefixChain(table[p].key, h.key, t[j].key);
          assert false;
        }
      }
    }
  }

  lemma {:induction false} RegisteredKeeps(hs: seq<Handler>)
    requires Dated(hs)
    ensures Sorted(Registered(hs))
    ensures forall h :: h in Registered(hs) <==> h in hs
  {
    hide Inserted;
    if hs != [] {
      var n := |hs| - 1;
      RegisteredKeeps(hs[..n]);
      assert forall x | x in hs[..n] :: x.when < n;
      InsertedSorted(Registered(hs[..n]), hs[n]);
      InsertedMembers(Registered(hs[..n]), hs[n]);
      assert hs == hs[..n] + [hs[n]];
    }
  }

  lemma InsertedMembers(t: seq<Handler>, h: Handler)
    ensures forall x :: x in Inserted(t, h) <==> x in t || x == h
  {
    var p := Place(t, h.key);
    assert t == t[..p] + t[p..];
  }

  // ---- dispatch ----

  function FirstMatch(table: seq<Handler>, key: Key, op: Op): Option<Handler> {
    if table == [] then None
    else if Serves(table[0], key, op) then Some(table[0])
    else FirstMatch(table[1..], key, op)
  }

  lemma {:induction false} FirstAt(table: seq<Handler>, key: Key, op: Op) returns (i: nat)
    ensures i <= |table| && forall j | 0 <= j < i :: !Serves(table[j], key, op)
    ensures FirstMatch(table, key, op) == if i == |table| then None else Some(table[i])
    ensures i < |table| ==> Serves(table[i], key, op)
  {
    if table == [] || Serves(table[0], key, op) {
      i := 0;
    } else {
      var k := FirstAt(table[1..], key, op);
      i := k + 1;
      assert forall j | 1 <= j < i :: table[j] == table[1..][j - 1];
    }
  }

  /** For every sequence of registrations, a request goes to the handler with the longest matching key that has
      the function asked for, to the newest of those with the same key, and to none only if none matches. */
  lemma DispatchLongest(hs: seq<Handler>, key: Key, op: Op)
    requires Dated(hs)
    ensures var r := FirstMatch(Registered(hs), key, op);
            && (r.None? <==> forall h | h in hs :: !Serves(h, key, op))
            && (r.Some? ==>
                  && r.value in hs && Serves(r.value, key, op)
                  && forall h | h in hs && Serves(h, key, op) ::
                       |h.key| < |r.value.key| || (h.key == r.value.key && h.when <= r.value.when))
  {
    RegisteredKeeps(hs);
    var t := Registered(hs);
    var i := FirstAt(t, key, op);
    forall h | h in hs && Serves(h, key, op)
      ensures i < |t| && (|h.key| < |t[i].key| || (h.key == t[i].key && h.when <= t[i].when))
    {
      var j :| 0 <= j < |t| && t[j] == h;
      assert j >= i;
      PrefixesCompare(t[i].key, h.key, key);
      PrefixesCompare(h.key, t[i].key, key);
    }
  }

  class Service {
    var functions: seq<Handler>
    ghost var history: seq<Handler>

    ghost predicate Valid()
      reads this
    {
      Dated(history) && functions == Registered(history)
    }

    constructor ()
      ensures Valid() && history == []
    {
      functions, history := [], [];
    }

    method Insert(h: Handler)
      requires Valid() && h.when == |history|
      modifies this
      ensures Valid() && history == old(history) + [h]
    {
      var it := 0;
      while it < |functions| && !KeyMatches(h.key, functions[it].key, false)
        invariant it <= |functions|
        invariant forall j | 0 <= j < it :: !(functions[j].key <= h.key)
      {
        it := it + 1;
      }
      functions := functions[..it] + [h] + functions[it..];
      history := history + [h];
      assert history[..|history| - 1] == old(history);
    }

    /** The loop of the three request handlers. */
    method Handle(key: Key, op: Op) returns (h: Option<Handler>)
      ensures h == FirstMatch(functions, key, op)
    {
      var ix := 0;
      assert functions[0..] == functions;
      while ix < |functions|
        invariant ix <= |functions| && FirstMatch(functions, key, op) == FirstMatch(functions[ix..], key, op)
      {
        if op in functions[ix].offers && KeyMatches(key, functions[ix].key, false) {
          return Some(functions[ix]);
        }
        assert functions[ix..][1..] == functions[ix + 1..];
        ix := ix + 1;
      }
      return None;
    }
  }
}
