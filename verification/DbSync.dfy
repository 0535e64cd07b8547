/** Bringing the objects of one database in line with another: mark every destination key, copy what the
    source has and unmark it, then sweep what is still marked.  Reads are pipelined, so decisions are taken
    on replies that may be older than the state they are applied to. */
module DbSync {
  import opened Bytes

  type Key = seq<byte>

  /** A stored object knows the key it is stored under. */
  datatype Obj = Obj(key: Key, attrs: seq<byte>)

  /** The fields of one database hash: the object, and the mark.  A hash without fields does not exist. */
  datatype Rec = Rec(obj: Option<Obj>, dirty: bool)

  type Store = map<Key, Rec>

  /** What the callback is asked about. */
  datatype Change = Create(src: Obj) | Update(src: Obj, dest: Obj) | Delete(dest: Obj)

  /** What the caller supplies: the keys its pattern selects, whether a source object as a filter already
      matches a destination object, and whether the callback agrees to a change. */
  datatype Env = Env(inScope: Key -> bool, matches: (Obj, Obj) -> bool, accept: Change -> bool)

  function ObjAt(s: Store, k: Key): Option<Obj> {
    if k in s then s[k].obj else None
  }

  predicate DirtyAt(s: Store, k: Key) {
    k in s && s[k].dirty
  }

  // ---- database commands ----

  function SetDirty(s: Store, k: Key): Store {
    s[k := Rec(ObjAt(s, k), true)]
  }

  function ClearDirty(s: Store, k: Key): Store {
    if ObjAt(s, k).None? then s - {k} else s[k := Rec(s[k].obj, false)]
  }

  function SetObj(s: Store, o: Obj): Store {
    s[o.key := Rec(Some(o), DirtyAt(s, o.key))]
  }

  // ---- one reply ----

  /** The create-or-set case, on the replies read for `k`. */
  function CopyOne(e: Env, s: Store, k: Key, src: Option<Obj>, dest: Option<Obj>): Store {
    if src.None? then s
    else if dest.Some? then
      var s' := ClearDirty(s, k);
      if !e.matches(src.value, dest.value) && e.accept(Update(src.value, dest.value)) then SetObj(s', src.value)
      else s'
    else if e.accept(Create(src.value)) then SetObj(s, src.value)
    else s
  }

  /** The delete case: the object is fetched into a variable that keeps its old content when there is none. */
  function SweepOne(e: Env, s: Store, held: Obj, k: Key, marked: bool): (Store, Obj) {
    if !marked then (s, held)
    else
      var held' := if ObjAt(s, k).Some? then ObjAt(s, k).value else held;
      if e.accept(Delete(held')) then (ClearDirty(s - {held'.key}, k), held') else (s, held')
  }

  // ---- a run, window by window ----

  /** The destination, and the object fetched from it last. */
  datatype At = At(dest: Store, held: Obj)

  /** What the three scans list. */
  datatype Scans = Scans(mark: seq<Key>, copy: seq<Key>, sweep: seq<Key>)

  /** How many requests are out when their replies are read. */
  function Width(pipe: nat): nat {
    if pipe == 0 then 1 else pipe
  }

  function Window(ks: seq<Key>, pipe: nat): nat {
    if |ks| < Width(pipe) then |ks| else Width(pipe)
  }

  /** The keys of one window, on the replies of the destination as it was when they were asked for. */
  function CopyWindow(e: Env, src: Store, asked: Store, s: At, ks: seq<Key>): At
    decreases |ks|
  {
    if ks == [] then s
    else
      var dest := ObjAt(asked, ks[0]);
      var held := if dest.Some? then dest.value else s.held;
      CopyWindow(e, src, asked, At(CopyOne(e, s.dest, ks[0], ObjAt(src, ks[0]), dest), held), ks[1..])
  }

  function CopyRun(e: Env, src: Store, s: At, ks: seq<Key>, pipe: nat): At
    decreases |ks|
  {
    if ks == [] then s
    else
      var n := Window(ks, pipe);
      CopyRun(e, src, CopyWindow(e, src, s.dest, s, ks[..n]), ks[n..], pipe)
  }

  function SweepWindow(e: Env, asked: Store, s: At, ks: seq<Key>): At
    decreases |ks|
  {
    if ks == [] then s
    else
      var (dest, held) := SweepOne(e, s.dest, s.held, ks[0], DirtyAt(asked, ks[0]));
      SweepWindow(e, asked, At(dest, held), ks[1..])
  }

  function SweepRun(e: Env, s: At, ks: seq<Key>, pipe: nat): At
    decreases |ks|
  {
    if ks == [] then s
    else
      var n := Window(ks, pipe);
      SweepRun(e, SweepWindow(e, s.dest, s, ks[..n]), ks[n..], pipe)
  }

  /** Where a run is when the copy phase is over. */
  function CopyPhase(e: Env, src: Store, pipe: nat, s: At, c: Scans): At {
    CopyRun(e, src, At(Marked(e, s.dest), s.held), c.copy, pipe)
  }

  function Run(e: Env, src: Store, pipe: nat, s: At, c: Scans): At {
    SweepRun(e, CopyPhase(e, src, pipe, s, c), c.sweep, pipe)
  }

  // ---- what each phase amounts to ----

  /** Every object is stored under its own key, and no key is empty. */
  ghost predicate Filed(s: Store) {
    forall k | k in s :: k != [] && (s[k].obj.Some? ==> s[k].obj.value.key == k)
  }

  /** Every selected record holds an object. */
  ghost predicate Full(e: Env, s: Store) {
    forall k | k in s && e.inScope(k) :: s[k].obj.Some?
  }

  function Marked(e: Env, s: Store): Store {
    map k | k in s :: if e.inScope(k) then Rec(s[k].obj, true) else s[k]
  }

  /** The object that ends up under a key that the source has. */
  function Chosen(e: Env, src: Obj, dest: Obj): Obj {
    if !e.matches(src, dest) && e.accept(Update(src, dest)) then src else dest
  }

  /** What the copy phase makes of the record under `k`. */
  function CopiedRec(e: Env, src: Store, d: Store, k: Key): Option<Rec> {
    var s := ObjAt(src, k);
    if s.None? then (if k in d then Some(d[k]) else None)
    else if ObjAt(d, k).Some? then Some(Rec(Some(Chosen(e, s.value, ObjAt(d, k).value)), false))
    else if e.accept(Create(s.value)) then Some(Rec(s, DirtyAt(d, k)))
    else if k in d then Some(d[k])
    else None
  }

  /** `d` after the copy phase has handled the keys `ks`. */
  ghost predicate Copied(e: Env, src: Store, d: Store, ks: set<Key>, s: Store) {
    && (forall k :: k in s <==> if k in ks then CopiedRec(e, src, d, k).Some? else k in d)
    && (forall k | k in s :: s[k] == if k in ks then CopiedRec(e, src, d, k).value else d[k])
  }

  predicate Doomed(e: Env, d: Store, k: Key) {
    DirtyAt(d, k) && d[k].obj.Some? && e.accept(Delete(d[k].obj.value))
  }

  /** `d` after the sweep has handled the keys `ks`. */
  function Swept(e: Env, d: Store, ks: set<Key>): Store {
    map k | k in d && !(k in ks && Doomed(e, d, k)) :: d[k]
  }

  // ---- copy ----

  /** What the destination can have answered when asked for `k`: its object before that key was handled, or
      afterwards if it was. */
  ghost predicate Answer(e: Env, src: Store, d: Store, ks: set<Key>, k: Key, reply: Option<Obj>) {
    || reply == ObjAt(d, k)
    || (k in ks && reply == match CopiedRec(e, src, d, k) case Some(r) => r.obj case None => None)
  }

  lemma NothingCopied(e: Env, src: Store, d: Store)
    ensures Copied(e, src, d, {}, d)
  {
  }

  lemma FreshAnswer(e: Env, src: Store, d: Store, ks: set<Key>, s: Store, k: Key)
    requires Copied(e, src, d, ks, s)
    ensures Answer(e, src, d, ks, k, ObjAt(s, k))
  {
  }

  /** Handling one key of the copy phase on any answer that can be waiting for it. */
  lemma CopyOneStep(e: Env, src: Store, d: Store, ks: set<Key>, s: Store, k: Key, dest: Option<Obj>)
    requires Filed(src) && Filed(d) && Full(e, d) && e.inScope(k) && Copied(e, src, d, ks, s)
    requires Answer(e, src, d, ks, k, dest)
    ensures Copied(e, src, d, ks + {k}, CopyOne(e, s, k, ObjAt(src, k), dest))
  {
    var s' := CopyOne(e, s, k, ObjAt(src, k), dest);
    CopyOneKey(e, src, d, ks, s, k, dest);
    forall x | x != k ensures (x in s' <==> x in s) && (x in s ==> s'[x] == s[x]) {
    }
  }

  /** What becomes of the record under the key itself. */
  lemma CopyOneKey(e: Env, src: Store, d: Store, ks: set<Key>, s: Store, k: Key, dest: Option<Obj>)
    requires Filed(src) && Filed(d) && Full(e, d) && e.inScope(k) && Copied(e, src, d, ks, s)
    requires Answer(e, src, d, ks, k, dest)
    ensures var s', r := CopyOne(e, s, k, ObjAt(src, k), dest), CopiedRec(e, src, d, k);
            (k in s' <==> r.Some?) && (k in s' ==> s'[k] == r.value)
  {
    assert k in d ==> d[k].obj.Some?;
    assert k in s <==> if k in ks then CopiedRec(e, src, d, k).Some? else k in d;
    assert k in s ==> s[k] == if k in ks then CopiedRec(e, src, d, k).value else d[k];
  }

  // ---- sweep ----

  /** Once a marked key was handled, the variable holds the object of some marked key that was. */
  ghost predicate HeldFrom(d: Store, ks: set<Key>, held: Obj) {
    forall k | k in ks && DirtyAt(d, k) ::
      held.key in ks && DirtyAt(d, held.key) && d[held.key].obj == Some(held)
  }

  /** What the destination can have answered when asked for the mark of `k`. */
  ghost predicate MarkAnswer(e: Env, d: Store, ks: set<Key>, k: Key, marked: bool) {
    if marked then DirtyAt(d, k) else !DirtyAt(d, k) || (k in ks && Doomed(e, d, k))
  }

  lemma NothingSwept(e: Env, d: Store)
    ensures Swept(e, d, {}) == d && Thinned(e, d, d) && forall held :: HeldFrom(d, {}, held)
  {
  }

  lemma FreshMark(e: Env, d: Store, ks: set<Key>, k: Key)
    ensures MarkAnswer(e, d, ks, k, DirtyAt(Swept(e, d, ks), k))
  {
  }

  /** Handling one key of the sweep on either reply that can be waiting for it.  A key listed twice is found
      gone the second time, and the object deleted again is then one that is gone as well. */
  lemma SweepOneStep(e: Env, d: Store, ks: set<Key>, held: Obj, k: Key, marked: bool)
    requires Filed(d) && (forall x | x in ks + {k} && DirtyAt(d, x) :: d[x].obj.Some?) && HeldFrom(d, ks, held)
    requires MarkAnswer(e, d, ks, k, marked)
    ensures var (s, held') := SweepOne(e, Swept(e, d, ks), held, k, marked);
            s == Swept(e, d, ks + {k}) && HeldFrom(d, ks + {k}, held')
  {
  }

  // ---- the whole run ----

  /** What a complete run leaves under `k`. */
  function Final(e: Env, src: Store, d: Store, k: Key): Option<Rec> {
    if !e.inScope(k) then (if k in d then Some(d[k]) else None)
    else
      match (ObjAt(src, k), ObjAt(d, k))
      case (Some(s), Some(o)) => Some(Rec(Some(Chosen(e, s, o)), false))
      case (Some(s), None) => if e.accept(Create(s)) then Some(Rec(Some(s), false)) else None
      case (None, Some(o)) => if e.accept(Delete(o)) then None else Some(Rec(Some(o), true))
      case (None, None) => None
  }

  ghost predicate IsFinal(e: Env, src: Store, d: Store, s: Store) {
    && (forall k :: k in s <==> Final(e, src, d, k).Some?)
    && (forall k | k in s :: s[k] == Final(e, src, d, k).value)
  }

  /** A scan lists selected keys only, each of which existed, and every one that was there throughout. */
  ghost predicate ScanOf(e: Env, before: Store, after: Store, ks: seq<Key>) {
    && (forall k | k in ks :: e.inScope(k) && k in before)
    && (forall k | k in before && k in after && e.inScope(k) :: k in ks)
  }

  /** Copying keeps every record filed under its key and every selected record full. */
  lemma CopiedFull(e: Env, src: Store, d: Store, ks: set<Key>, s: Store)
    requires Filed(src) && Filed(d) && Full(e, d) && Copied(e, src, d, ks, s)
    ensures Filed(s) && Full(e, s)
  {
  }

  lemma PhasesCompose(e: Env, src: Store, d0: Store, srcKeys: seq<Key>, d2: Store, sweepKeys: seq<Key>)
    requires Filed(src) && Filed(d0) && Full(e, d0)
    requires ScanOf(e, src, src, srcKeys)
    requires Copied(e, src, Marked(e, d0), KeySet(srcKeys), d2)
    requires ScanOf(e, d2, Swept(e, d2, KeySet(sweepKeys)), sweepKeys)
    ensures IsFinal(e, src, d0, Swept(e, d2, KeySet(sweepKeys)))
  {
    hide Filed, Full, ScanOf, Copied, Marked, Swept, Final;
    var s := Swept(e, d2, KeySet(sweepKeys));
    forall k ensures (k in s <==> Final(e, src, d0, k).Some?) && (k in s ==> s[k] == Final(e, src, d0, k).value) {
      CopiedAt(e, src, d0, srcKeys, d2, k);
      SweptAt(e, src, d0, d2, sweepKeys, k);
    }
  }

  /** What is under one key after the copy phase. */
  ghost predicate CopiedKey(e: Env, src: Store, d0: Store, d2: Store, k: Key) {
    if e.inScope(k) then
      var r := CopiedRec(e, src, Marked(e, d0), k); (k in d2 <==> r.Some?) && (k in d2 ==> d2[k] == r.value)
    else (k in d2 <==> k in d0) && (k in d2 ==> d2[k] == d0[k])
  }

  lemma CopiedAt(e: Env, src: Store, d0: Store, srcKeys: seq<Key>, d2: Store, k: Key)
    requires ScanOf(e, src, src, srcKeys) && Copied(e, src, Marked(e, d0), KeySet(srcKeys), d2)
    ensures CopiedKey(e, src, d0, d2, k)
  {
    var d1 := Marked(e, d0);
    assert k in d2 <==> if k in KeySet(srcKeys) then CopiedRec(e, src, d1, k).Some? else k in d1;
    assert k in d2 ==> d2[k] == if k in KeySet(srcKeys) then CopiedRec(e, src, d1, k).value else d1[k];
    assert ObjAt(src, k).Some? && e.inScope(k) ==> k in KeySet(srcKeys);
  }

  lemma SweptAt(e: Env, src: Store, d0: Store, d2: Store, sweepKeys: seq<Key>, k: Key)
    requires Full(e, d0) && CopiedKey(e, src, d0, d2, k)
    requires ScanOf(e, d2, Swept(e, d2, KeySet(sweepKeys)), sweepKeys)
    ensures var s := Swept(e, d2, KeySet(sweepKeys));
            (k in s <==> Final(e, src, d0, k).Some?) && (k in s ==> s[k] == Final(e, src, d0, k).value)
  {
    assert ObjAt(Marked(e, d0), k) == ObjAt(d0, k);
    assert k in d0 && e.inScope(k) ==> d0[k].obj.Some?;
  }

  function KeySet(ks: seq<Key>): set<Key> {
    set k | k in ks
  }

  // ---- what a complete run achieves ----

  ghost predicate AcceptsAll(e: Env) {
    forall c :: e.accept(c)
  }

  /** The selected keys of the destination are those of the source, each holds the source object or one that
      already matched it, nothing selected stays marked, and the rest is as it was. */
  ghost predicate Converged(e: Env, src: Store, d: Store, s: Store) {
    && (forall k | e.inScope(k) :: k in s <==> ObjAt(src, k).Some?)
    && (forall k | e.inScope(k) && k in s ::
          && !s[k].dirty
          && (s[k].obj == ObjAt(src, k) ||
              (k in d && s[k].obj == d[k].obj && s[k].obj.Some? && e.matches(ObjAt(src, k).value, s[k].obj.value))))
    && (forall k | !e.inScope(k) :: (k in s <==> k in d) && (k in s ==> s[k] == d[k]))
  }

  /** The final state is what is wanted if the callback agrees to everything. */
  lemma Converges(e: Env, src: Store, d: Store, s: Store)
    requires Full(e, d) && AcceptsAll(e) && IsFinal(e, src, d, s)
    ensures Converged(e, src, d, s)
  {
    forall k | k in s ensures s[k] == Final(e, src, d, k).value {}
  }

  /** Whatever the callback refuses, a second run changes nothing. */
  lemma RunTwice(e: Env, src: Store, d: Store, s: Store)
    requires Full(e, d) && IsFinal(e, src, d, s)
    ensures Full(e, s) && IsFinal(e, src, s, s)
  {
    forall k ensures Final(e, src, s, k) == Final(e, src, d, k) {
      assert k in s <==> Final(e, src, d, k).Some?;
    }
  }

  /** Three steps for one key that the source has: mark, copy, sweep. */
  function OneKey(e: Env, d: Store, held: Obj, o: Obj): Store {
    var d1 := if o.key in d then SetDirty(d, o.key) else d;
    var d2 := CopyOne(e, d1, o.key, Some(o), ObjAt(d1, o.key));
    SweepOne(e, d2, held, o.key, DirtyAt(d2, o.key)).0
  }

  /** Why the destination records have to be full: a source object survives its own synchronisation exactly
      when the destination had no record under its key, or one with an object.  A record without an object is
      marked, is filled without being unmarked, and is then swept. */
  lemma FullRecordsNeeded(e: Env, d: Store, held: Obj, o: Obj)
    requires AcceptsAll(e) && Filed(d)
    ensures ObjAt(OneKey(e, d, held, o), o.key).Some? <==> o.key !in d || d[o.key].obj.Some?
  {
  }

  /** A marked record without an object does more harm when the source does not have its key either: the object
      fetched last, by the copy phase for instance, is deleted in its stead. */
  lemma BareRecordTakesAnother(e: Env, s: Store, k: Key, last: Obj)
    requires AcceptsAll(e) && Filed(s) && DirtyAt(s, k) && last.key in s && last.key != k
    ensures last.key !in SweepOne(e, s, last, k, true).0 <==> s[k].obj.None?
    ensures k !in SweepOne(e, s, last, k, true).0
  {
  }

  // ---- what holds of any destination ----

  /** Whatever is in the destination: only selected keys change, a key that is new is one of the source's, and what a
      selected key holds is what the destination or the source had there. */
  ghost predicate SafeAt(e: Env, src: Store, d: Store, s: Store, k: Key) {
    if !e.inScope(k) then (k in s <==> k in d) && (k in s ==> s[k] == d[k])
    else
      && (k in s ==> k in d || ObjAt(src, k).Some?)
      && (ObjAt(s, k).None? || ObjAt(s, k) == ObjAt(d, k) || ObjAt(s, k) == ObjAt(src, k))
  }

  ghost predicate Safe(e: Env, src: Store, d: Store, s: Store) {
    Filed(s) && forall k :: SafeAt(e, src, d, s, k)
  }

  lemma MarkSafe(e: Env, src: Store, d: Store)
    requires Filed(d)
    ensures Safe(e, src, d, d) && Safe(e, src, d, Marked(e, d)) && Filed(Marked(e, d))
    ensures Full(e, d) <==> Full(e, Marked(e, d))
  {
    forall k ensures SafeAt(e, src, d, d, k) && SafeAt(e, src, d, Marked(e, d), k) {
    }
  }

  lemma CopySafe(e: Env, src: Store, d: Store, s: Store, k: Key, dest: Option<Obj>)
    requires Filed(src) && Safe(e, src, d, s) && e.inScope(k)
    ensures Safe(e, src, d, CopyOne(e, s, k, ObjAt(src, k), dest))
  {
    var s' := CopyOne(e, s, k, ObjAt(src, k), dest);
    forall x ensures SafeAt(e, src, d, s', x) {
      assert SafeAt(e, src, d, s, x);
    }
  }

  /** A sweep only takes selected records away. */
  ghost predicate Thinned(e: Env, d: Store, s: Store) {
    && (forall k | k in s :: k in d && s[k] == d[k])
    && (forall k | k in d && !e.inScope(k) :: k in s)
  }

  /** The object fetched last is a selected one, or the empty one that there is at first. */
  ghost predicate Fetched(e: Env, held: Obj) {
    held.key == [] || e.inScope(held.key)
  }

  lemma SweepThins(e: Env, d: Store, s: Store, held: Obj, k: Key, marked: bool)
    requires Filed(d) && Thinned(e, d, s) && Fetched(e, held) && e.inScope(k)
    ensures var (s', held') := SweepOne(e, s, held, k, marked); Thinned(e, d, s') && Fetched(e, held')
  {
  }

  lemma ThinnedSafe(e: Env, src: Store, d: Store, d1: Store, s: Store)
    requires Safe(e, src, d, d1) && Thinned(e, d1, s)
    ensures Safe(e, src, d, s)
  {
    forall x ensures SafeAt(e, src, d, s, x) {
      assert SafeAt(e, src, d, d1, x);
    }
  }

  // ---- what every run does ----

  /** The scans of a run list what they should: each is taken of the keys there at its time. */
  ghost predicate Possible(e: Env, src: Store, pipe: nat, s: At, c: Scans) {
    && ScanOf(e, s.dest, s.dest, c.mark)
    && ScanOf(e, src, src, c.copy)
    && ScanOf(e, CopyPhase(e, src, pipe, s, c).dest, Run(e, src, pipe, s, c).dest, c.sweep)
  }

  ghost predicate Selected(e: Env, ks: seq<Key>) {
    forall k | k in ks :: e.inScope(k)
  }

  lemma {:induction false} WindowSafe(e: Env, src: Store, d: Store, asked: Store, s: At, ks: seq<Key>)
    requires Filed(src) && Safe(e, src, d, asked) && Safe(e, src, d, s.dest) && Fetched(e, s.held) && Selected(e, ks)
    ensures var r := CopyWindow(e, src, asked, s, ks); Safe(e, src, d, r.dest) && Fetched(e, r.held)
    decreases |ks|
  {
    hide Safe, Filed, Fetched, CopyOne, ObjAt;
    if ks != [] {
      CopySafe(e, src, d, s.dest, ks[0], ObjAt(asked, ks[0]));
      SelectedReply(e, src, d, asked, ks[0]);
      var dest := ObjAt(asked, ks[0]);
      var held := if dest.Some? then dest.value else s.held;
      WindowSafe(e, src, d, asked, At(CopyOne(e, s.dest, ks[0], ObjAt(src, ks[0]), dest), held), ks[1..]);
    }
  }

  /** Whatever the destination holds, copying changes selected keys only, to what the source has there. */
  lemma {:induction false} CopyRunSafe(e: Env, src: Store, d: Store, s: At, ks: seq<Key>, pipe: nat)
    requires Filed(src) && Safe(e, src, d, s.dest) && Fetched(e, s.held) && Selected(e, ks)
    ensures var r := CopyRun(e, src, s, ks, pipe); Safe(e, src, d, r.dest) && Fetched(e, r.held)
    decreases |ks|
  {
    hide Safe, Filed, Fetched, CopyWindow;
    if ks != [] {
      var n := Window(ks, pipe);
      WindowSafe(e, src, d, s.dest, s, ks[..n]);
      CopyRunSafe(e, src, d, CopyWindow(e, src, s.dest, s, ks[..n]), ks[n..], pipe);
    }
  }

  lemma {:induction false} WindowThins(e: Env, d: Store, asked: Store, s: At, ks: seq<Key>)
    requires Filed(d) && Thinned(e, d, s.dest) && Fetched(e, s.held) && Selected(e, ks)
    ensures var r := SweepWindow(e, asked, s, ks); Thinned(e, d, r.dest) && Fetched(e, r.held)
    decreases |ks|
  {
    hide Thinned, Filed, Fetched, SweepOne;
    if ks != [] {
      SweepThins(e, d, s.dest, s.held, ks[0], DirtyAt(asked, ks[0]));
      var (dest, held) := SweepOne(e, s.dest, s.held, ks[0], DirtyAt(asked, ks[0]));
      WindowThins(e, d, asked, At(dest, held), ks[1..]);
    }
  }

  /** Whatever the destination holds, a sweep only takes selected records away. */
  lemma {:induction false} SweepRunThins(e: Env, d: Store, s: At, ks: seq<Key>, pipe: nat)
    requires Filed(d) && Thinned(e, d, s.dest) && Fetched(e, s.held) && Selected(e, ks)
    ensures var r := SweepRun(e, s, ks, pipe); Thinned(e, d, r.dest) && Fetched(e, r.held)
    decreases |ks|
  {
    hide Thinned, Filed, Fetched, SweepWindow;
    if ks != [] {
      var n := Window(ks, pipe);
      WindowThins(e, d, s.dest, s, ks[..n]);
      SweepRunThins(e, d, SweepWindow(e, s.dest, s, ks[..n]), ks[n..], pipe);
    }
  }

  lemma CopyPhaseSafe(e: Env, src: Store, pipe: nat, s: At, c: Scans)
    requires Filed(src) && Filed(s.dest) && Fetched(e, s.held) && Selected(e, c.copy)
    ensures var r := CopyPhase(e, src, pipe, s, c); Safe(e, src, s.dest, r.dest) && Filed(r.dest) && Fetched(e, r.held)
  {
    hide Safe, Fetched, CopyRun;
    MarkSafe(e, src, s.dest);
    CopyRunSafe(e, src, s.dest, At(Marked(e, s.dest), s.held), c.copy, pipe);
    SafeFiled(e, src, s.dest, CopyPhase(e, src, pipe, s, c).dest);
  }

  lemma RunSafe(e: Env, src: Store, pipe: nat, s: At, c: Scans)
    requires Filed(src) && Filed(s.dest) && Fetched(e, s.held) && Selected(e, c.copy) && Selected(e, c.sweep)
    ensures var r := Run(e, src, pipe, s, c);
            Safe(e, src, s.dest, r.dest) && Thinned(e, CopyPhase(e, src, pipe, s, c).dest, r.dest) && Fetched(e, r.held)
  {
    hide Safe, Fetched, CopyPhase, SweepRun, Thinned, Filed;
    var m := CopyPhase(e, src, pipe, s, c);
    CopyPhaseSafe(e, src, pipe, s, c);
    NothingSwept(e, m.dest);
    SweepRunThins(e, m.dest, m, c.sweep, pipe);
    ThinnedSafe(e, src, s.dest, m.dest, Run(e, src, pipe, s, c).dest);
  }

  // ---- runs on full records ----

  lemma {:induction false} WindowCopies(
      e: Env, src: Store, d: Store, was: set<Key>, asked: Store, done: set<Key>, s: At, ks: seq<Key>)
    requires Filed(src) && Filed(d) && Full(e, d) && Selected(e, ks)
    requires Copied(e, src, d, was, asked) && was <= done && Copied(e, src, d, done, s.dest)
    ensures Copied(e, src, d, done + KeySet(ks), CopyWindow(e, src, asked, s, ks).dest)
    decreases |ks|
  {
    hide Copied, Filed, Full, CopyOne, ObjAt, Answer;
    if ks == [] {
      assert done + KeySet(ks) == done;
    } else {
      var dest := ObjAt(asked, ks[0]);
      FreshAnswer(e, src, d, was, asked, ks[0]);
      AnswerLater(e, src, d, was, done, ks[0], dest);
      CopyOneStep(e, src, d, done, s.dest, ks[0], dest);
      var held := if dest.Some? then dest.value else s.held;
      WindowCopies(e, src, d, was, asked, done + {ks[0]},
                   At(CopyOne(e, s.dest, ks[0], ObjAt(src, ks[0]), dest), held), ks[1..]);
      assert done + {ks[0]} + KeySet(ks[1..]) == done + KeySet(ks);
    }
  }

  /** On full records the pipelined copy phase amounts to one decision for each key. */
  lemma {:induction false} CopyRunCopies(
      e: Env, src: Store, d: Store, done: set<Key>, s: At, ks: seq<Key>, pipe: nat)
    requires Filed(src) && Filed(d) && Full(e, d) && Selected(e, ks) && Copied(e, src, d, done, s.dest)
    ensures Copied(e, src, d, done + KeySet(ks), CopyRun(e, src, s, ks, pipe).dest)
    decreases |ks|
  {
    hide Copied, Filed, Full, CopyWindow;
    if ks == [] {
      assert done + KeySet(ks) == done;
    } else {
      var n := Window(ks, pipe);
      WindowCopies(e, src, d, done, s.dest, done, s, ks[..n]);
      CopyRunCopies(e, src, d, done + KeySet(ks[..n]), CopyWindow(e, src, s.dest, s, ks[..n]), ks[n..], pipe);
      KeySplit(ks, n);
      assert done + KeySet(ks[..n]) + KeySet(ks[n..]) == done + KeySet(ks);
    }
  }

  lemma {:induction false} WindowSweeps(
      e: Env, d: Store, was: set<Key>, done: set<Key>, s: At, ks: seq<Key>)
    requires Filed(d) && was <= done && NoneBare(d, done + KeySet(ks))
    requires s.dest == Swept(e, d, done) && HeldFrom(d, done, s.held)
    ensures var r := SweepWindow(e, Swept(e, d, was), s, ks);
            r.dest == Swept(e, d, done + KeySet(ks)) && HeldFrom(d, done + KeySet(ks), r.held)
    decreases |ks|
  {
    hide Swept, HeldFrom, Filed, SweepOne, MarkAnswer;
    if ks == [] {
      assert done + KeySet(ks) == done;
    } else {
      var marked := DirtyAt(Swept(e, d, was), ks[0]);
      FreshMark(e, d, was, ks[0]);
      MarkAnswerLater(e, d, was, done, ks[0], marked);
      SweepOneStep(e, d, done, s.held, ks[0], marked);
      var (dest, held) := SweepOne(e, s.dest, s.held, ks[0], marked);
      assert done + {ks[0]} + KeySet(ks[1..]) == done + KeySet(ks);
      WindowSweeps(e, d, was, done + {ks[0]}, At(dest, held), ks[1..]);
    }
  }

  /** If each marked record has an object, the pipelined sweep takes away those whose deletion is accepted. */
  lemma {:induction false} SweepRunSweeps(e: Env, d: Store, done: set<Key>, s: At, ks: seq<Key>, pipe: nat)
    requires Filed(d) && NoneBare(d, done + KeySet(ks))
    requires s.dest == Swept(e, d, done) && HeldFrom(d, done, s.held)
    ensures SweepRun(e, s, ks, pipe).dest == Swept(e, d, done + KeySet(ks))
    decreases |ks|
  {
    hide Swept, HeldFrom, Filed, SweepWindow;
    if ks == [] {
      assert done + KeySet(ks) == done;
    } else {
      var n := Window(ks, pipe);
      KeySplit(ks, n);
      assert done + KeySet(ks[..n]) + KeySet(ks[n..]) == done + KeySet(ks);
      WindowSweeps(e, d, done, done, s, ks[..n]);
      SweepRunSweeps(e, d, done + KeySet(ks[..n]), SweepWindow(e, s.dest, s, ks[..n]), ks[n..], pipe);
    }
  }

  /** On full records every run ends in the final state, whatever the window and the order and repetitions of the
      scans. */
  lemma RunFinal(e: Env, src: Store, pipe: nat, s: At, c: Scans)
    requires Filed(src) && Filed(s.dest) && Full(e, s.dest) && Possible(e, src, pipe, s, c)
    ensures IsFinal(e, src, s.dest, Run(e, src, pipe, s, c).dest)
  {
    hide Copied, CopyRun, SweepRun, Marked, IsFinal, Swept, Safe, Filed, Full, NoneBare, HeldFrom, Thinned;
    var d1 := Marked(e, s.dest);
    var m := CopyPhase(e, src, pipe, s, c);
    MarkSafe(e, src, s.dest);
    NothingCopied(e, src, d1);
    CopyRunCopies(e, src, d1, {}, At(d1, s.held), c.copy, pipe);
    assert {} + KeySet(c.copy) == KeySet(c.copy);
    CopiedFull(e, src, d1, KeySet(c.copy), m.dest);
    FullNoneBare(e, m.dest, c.sweep);
    NothingSwept(e, m.dest);
    assert {} + KeySet(c.sweep) == KeySet(c.sweep);
    SweepRunSweeps(e, m.dest, {}, m, c.sweep, pipe);
    PhasesCompose(e, src, s.dest, c.copy, m.dest, c.sweep);
  }

  // ---- runs on any records ----

  ghost predicate NoneSelected(e: Env, src: Store) {
    forall k | e.inScope(k) :: ObjAt(src, k).None?
  }

  lemma {:induction false} WindowIdle(e: Env, src: Store, asked: Store, s: At, ks: seq<Key>)
    requires NoneSelected(e, src) && Selected(e, ks)
    ensures CopyWindow(e, src, asked, s, ks).dest == s.dest
    decreases |ks|
  {
    if ks != [] {
      var dest := ObjAt(asked, ks[0]);
      var held := if dest.Some? then dest.value else s.held;
      WindowIdle(e, src, asked, At(s.dest, held), ks[1..]);
    }
  }

  /** Without selected source objects the copy phase changes nothing. */
  lemma {:induction false} CopyIdle(e: Env, src: Store, s: At, ks: seq<Key>, pipe: nat)
    requires NoneSelected(e, src) && Selected(e, ks)
    ensures CopyRun(e, src, s, ks, pipe).dest == s.dest
    decreases |ks|
  {
    hide CopyWindow, NoneSelected;
    if ks != [] {
      var n := Window(ks, pipe);
      WindowIdle(e, src, s.dest, s, ks[..n]);
      CopyIdle(e, src, CopyWindow(e, src, s.dest, s, ks[..n]), ks[n..], pipe);
    }
  }

  /** A key whose record has the mark, or is gone, is gone once it was handled. */
  lemma SweptAway(e: Env, asked: Store, s: At, k: Key)
    requires AcceptsAll(e) && Filed(asked) && (forall x | x in s.dest :: x in asked && s.dest[x] == asked[x])
    requires k in asked ==> asked[k].dirty
    ensures k !in SweepOne(e, s.dest, s.held, k, DirtyAt(asked, k)).0
  {
  }

  lemma {:induction false} WindowClears(e: Env, asked: Store, s: At, ks: seq<Key>)
    requires AcceptsAll(e) && Filed(asked) && Thinned(e, asked, s.dest) && Fetched(e, s.held) && Selected(e, ks)
    requires forall k | k in ks && k in asked :: asked[k].dirty
    ensures forall k | k in ks :: k !in SweepWindow(e, asked, s, ks).dest
    decreases |ks|
  {
    hide AcceptsAll, Filed, Fetched, SweepOne;
    if ks != [] {
      var (dest, held) := SweepOne(e, s.dest, s.held, ks[0], DirtyAt(asked, ks[0]));
      SweptAway(e, asked, s, ks[0]);
      SweepThins(e, asked, s.dest, s.held, ks[0], DirtyAt(asked, ks[0]));
      WindowClears(e, asked, At(dest, held), ks[1..]);
      NothingSwept(e, dest);
      FiledPart(e, asked, dest);
      WindowThins(e, dest, asked, At(dest, held), ks[1..]);
    }
  }

  lemma FiledPart(e: Env, d: Store, s: Store)
    requires Filed(d) && Thinned(e, d, s)
    ensures Filed(s)
  {
  }

  /** With an accepting callback, a sweep over marked records leaves none of the keys it lists. */
  lemma {:induction false} SweepClears(e: Env, s: At, ks: seq<Key>, pipe: nat)
    requires AcceptsAll(e) && Filed(s.dest) && Fetched(e, s.held) && Selected(e, ks)
    requires forall k | k in ks && k in s.dest :: s.dest[k].dirty
    ensures forall k | k in ks :: k !in SweepRun(e, s, ks, pipe).dest
    decreases |ks|
  {
    hide AcceptsAll, Fetched, SweepWindow, Filed;
    if ks != [] {
      var n := Window(ks, pipe);
      var m := SweepWindow(e, s.dest, s, ks[..n]);
      NothingSwept(e, s.dest);
      NothingSwept(e, m.dest);
      WindowClears(e, s.dest, s, ks[..n]);
      WindowThins(e, s.dest, s.dest, s, ks[..n]);
      FiledPart(e, s.dest, m.dest);
      SweepClears(e, m, ks[n..], pipe);
      SweepRunThins(e, m.dest, m, ks[n..], pipe);
      forall k | k in ks ensures k !in SweepRun(e, s, ks, pipe).dest {
        assert k in ks[..n] || k in ks[n..] by { assert ks == ks[..n] + ks[n..]; }
      }
    }
  }

  /** If the source has nothing selected, every run takes away whatever the destination has, bare records or not. */
  lemma RunEmpties(e: Env, src: Store, pipe: nat, s: At, c: Scans)
    requires AcceptsAll(e) && Filed(src) && Filed(s.dest) && Fetched(e, s.held)
    requires NoneSelected(e, src) && Possible(e, src, pipe, s, c)
    ensures Converged(e, src, s.dest, Run(e, src, pipe, s, c).dest)
  {
    hide AcceptsAll, Filed, Fetched, CopyRun, SweepRun, Safe;
    var m, r := CopyPhase(e, src, pipe, s, c), Run(e, src, pipe, s, c);
    CopyPhaseSafe(e, src, pipe, s, c);
    CopyIdle(e, src, At(Marked(e, s.dest), s.held), c.copy, pipe);
    SweepClears(e, m, c.sweep, pipe);
    RunSafe(e, src, pipe, s, c);
    forall k | e.inScope(k) ensures k !in r.dest {
    }
    SafeOutside(e, src, s.dest, r.dest);
  }

  lemma SafeOutside(e: Env, src: Store, d: Store, s: Store)
    requires Safe(e, src, d, s)
    ensures forall k | !e.inScope(k) :: (k in s <==> k in d) && (k in s ==> s[k] == d[k])
  {
    forall k | !e.inScope(k) ensures (k in s <==> k in d) && (k in s ==> s[k] == d[k]) {
      assert SafeAt(e, src, d, s, k);
    }
  }

  // ---- a run that loses a source object ----

  /** The selected keys of a database in some order. */
  ghost function Listing(e: Env, s: Store): (ks: seq<Key>)
    ensures forall k :: k in ks <==> k in s && e.inScope(k)
    decreases |s|
  {
    if s == map[] then []
    else
      var k :| k in s;
      (if e.inScope(k) then [k] else []) + Listing(e, s - {k})
  }

  /** The record under `x` is the same on both sides. */
  ghost predicate SameAt(d: Store, s: Store, x: Key) {
    (x in s <==> x in d) && (x in s ==> s[x] == d[x])
  }

  lemma {:induction false} WindowFrame(e: Env, src: Store, asked: Store, s: At, ks: seq<Key>, x: Key)
    requires Filed(src) && (x !in ks || ObjAt(src, x).None?)
    ensures SameAt(s.dest, CopyWindow(e, src, asked, s, ks).dest, x)
    decreases |ks|
  {
    if ks != [] {
      var dest := ObjAt(asked, ks[0]);
      var held := if dest.Some? then dest.value else s.held;
      WindowFrame(e, src, asked, At(CopyOne(e, s.dest, ks[0], ObjAt(src, ks[0]), dest), held), ks[1..], x);
    }
  }

  /** Copying leaves a key alone that it does not list or that the source has no object for. */
  lemma {:induction false} CopyFrame(e: Env, src: Store, s: At, ks: seq<Key>, pipe: nat, x: Key)
    requires Filed(src) && (x !in ks || ObjAt(src, x).None?)
    ensures SameAt(s.dest, CopyRun(e, src, s, ks, pipe).dest, x)
    decreases |ks|
  {
    hide CopyWindow, Filed;
    if ks != [] {
      var n := Window(ks, pipe);
      WindowFrame(e, src, s.dest, s, ks[..n], x);
      CopyFrame(e, src, CopyWindow(e, src, s.dest, s, ks[..n]), ks[n..], pipe, x);
    }
  }

  /** There is an object under `x`, filed as it should be. */
  ghost predicate Has(d: Store, x: Key) {
    ObjAt(d, x).Some? && ObjAt(d, x).value.key == x
  }

  lemma OneHas(e: Env, src: Store, s: Store, k: Key, dest: Option<Obj>, x: Key)
    requires Filed(src) && Has(s, x)
    ensures Has(CopyOne(e, s, k, ObjAt(src, k), dest), x)
  {
  }

  lemma {:induction false} WindowHas(e: Env, src: Store, asked: Store, s: At, ks: seq<Key>, x: Key)
    requires Filed(src) && Has(s.dest, x)
    ensures Has(CopyWindow(e, src, asked, s, ks).dest, x)
    decreases |ks|
  {
    hide Filed, Has, CopyOne, ObjAt;
    if ks != [] {
      var dest := ObjAt(asked, ks[0]);
      var held := if dest.Some? then dest.value else s.held;
      OneHas(e, src, s.dest, ks[0], dest, x);
      WindowHas(e, src, asked, At(CopyOne(e, s.dest, ks[0], ObjAt(src, ks[0]), dest), held), ks[1..], x);
    }
  }

  lemma {:induction false} WindowLast(e: Env, src: Store, asked: Store, s: At, ks: seq<Key>, x: Key)
    requires Has(asked, x)
    ensures CopyWindow(e, src, asked, s, ks + [x]).held.key == x
    decreases |ks|
  {
    hide CopyOne;
    var all := ks + [x];
    var dest := ObjAt(asked, all[0]);
    var held := if dest.Some? then dest.value else s.held;
    var s' := At(CopyOne(e, s.dest, all[0], ObjAt(src, all[0]), dest), held);
    if ks != [] {
      WindowLast(e, src, asked, s', ks[1..], x);
      assert all[1..] == ks[1..] + [x];
    } else {
      assert all[1..] == [];
    }
  }

  /** If the destination has an object under the key listed last, that object is fetched last, and is there. */
  lemma {:induction false} CopyLast(e: Env, src: Store, s: At, ks: seq<Key>, pipe: nat, x: Key)
    requires Filed(src) && Has(s.dest, x)
    ensures var r := CopyRun(e, src, s, ks + [x], pipe); r.held.key == x && Has(r.dest, x)
    decreases |ks|
  {
    hide CopyWindow, Filed, Has;
    var all := ks + [x];
    var n := Window(all, pipe);
    var m := CopyWindow(e, src, s.dest, s, all[..n]);
    WindowHas(e, src, s.dest, s, all[..n], x);
    if n == |all| {
      assert all[..n] == all && all[n..] == [];
      WindowLast(e, src, s.dest, s, ks, x);
    } else {
      assert all[n..] == ks[n..] + [x];
      CopyLast(e, src, m, ks[n..], pipe, x);
    }
  }

  /** A first window that lists only `x` puts an object there. */
  lemma FirstWindow(e: Env, src: Store, s: At, ks: seq<Key>, x: Key)
    requires AcceptsAll(e) && Filed(src) && Filed(s.dest) && ObjAt(src, x).Some? && ks != [] && ks[0] == x
    ensures Has(CopyWindow(e, src, s.dest, s, ks).dest, x)
  {
    var dest := ObjAt(s.dest, x);
    var held := if dest.Some? then dest.value else s.held;
    var s' := At(CopyOne(e, s.dest, x, ObjAt(src, x), dest), held);
    WindowHas(e, src, s.dest, s', ks[1..], x);
  }

  /** Listing a window full of `x`, then anything, then `x` again fetches an object of `x` last. */
  lemma CopyHolds(e: Env, src: Store, s: At, ks: seq<Key>, pipe: nat, x: Key)
    requires AcceptsAll(e) && Filed(src) && Filed(s.dest) && ObjAt(src, x).Some?
    ensures var r := CopyRun(e, src, s, seq(Width(pipe), _ => x) + (ks + [x]), pipe); r.held.key == x && Has(r.dest, x)
  {
    hide AcceptsAll, Filed, Has, CopyWindow;
    var first, rest := seq(Width(pipe), _ => x), ks + [x];
    var n := Window(first + rest, pipe);
    assert (first + rest)[..n] == first && (first + rest)[n..] == rest;
    FirstWindow(e, src, s, first, x);
    CopyLast(e, src, CopyWindow(e, src, s.dest, s, first), ks, pipe, x);
  }

  /** What a sweep step took away stays away. */
  lemma SweepHead(e: Env, s: At, ks: seq<Key>, pipe: nat, x: Key)
    requires Filed(s.dest) && Fetched(e, s.held) && Selected(e, ks) && ks != []
    requires x !in SweepOne(e, s.dest, s.held, ks[0], DirtyAt(s.dest, ks[0])).0
    ensures x !in SweepRun(e, s, ks, pipe).dest
  {
    hide Filed, Fetched, SweepOne;
    var n := Window(ks, pipe);
    var (dest, held) := SweepOne(e, s.dest, s.held, ks[0], DirtyAt(s.dest, ks[0]));
    NothingSwept(e, s.dest);
    SweepThins(e, s.dest, s.dest, s.held, ks[0], DirtyAt(s.dest, ks[0]));
    FiledPart(e, s.dest, dest);
    NothingSwept(e, dest);
    assert ks[..n][0] == ks[0];
    WindowThins(e, dest, s.dest, At(dest, held), ks[..n][1..]);
    SweepRunThins(e, dest, SweepWindow(e, s.dest, s, ks[..n]), ks[n..], pipe);
  }

  /** A bare record the source has an object for: it is filled, still marked, and swept. */
  lemma BareFilled(e: Env, src: Store, s: At, ks: seq<Key>, pipe: nat, x: Key)
    requires Filed(src) && AcceptsAll(e) && x !in ks && ObjAt(src, x).Some?
    requires ObjAt(s.dest, x).None? && DirtyAt(s.dest, x)
    ensures var r := CopyRun(e, src, s, [x] + ks, pipe); DirtyAt(r.dest, x) && r.dest[x].obj == ObjAt(src, x)
  {
    var all := [x] + ks;
    var n := Window(all, pipe);
    var s' := At(CopyOne(e, s.dest, x, ObjAt(src, x), None), s.held);
    assert all[..n][0] == x && all[..n][1..] == ks[..n - 1] && all[n..] == ks[n - 1..];
    WindowFrame(e, src, s.dest, s', ks[..n - 1], x);
    CopyFrame(e, src, CopyWindow(e, src, s.dest, s, all[..n]), ks[n - 1..], pipe, x);
  }

  /** A copy scan after which the record under `bare` has another one deleted, or is filled and deleted itself. */
  ghost function BadScan(e: Env, src: Store, pipe: nat, bare: Key, lost: Key): (ks: seq<Key>)
    requires e.inScope(bare) && e.inScope(lost) && ObjAt(src, lost).Some?
    ensures ScanOf(e, src, src, ks)
  {
    if ObjAt(src, bare).Some? then [bare] + Listing(e, src - {bare})
    else seq(Width(pipe), _ => lost) + (Listing(e, src) + [lost])
  }

  /** A bare record and a selected source object: some scans make a run lose a source object. */
  lemma RunLoses(e: Env, src: Store, pipe: nat, s: At, bare: Key, given: Key) returns (c: Scans, lost: Key)
    requires AcceptsAll(e) && Filed(src) && Filed(s.dest) && Fetched(e, s.held)
    requires e.inScope(bare) && bare in s.dest && s.dest[bare].obj.None?
    requires e.inScope(given) && ObjAt(src, given).Some?
    ensures Possible(e, src, pipe, s, c)
    ensures e.inScope(lost) && ObjAt(src, lost).Some? && lost !in Run(e, src, pipe, s, c).dest
  {
    hide AcceptsAll, Filed, Fetched, CopyRun, SweepRun, Safe, SweepOne, ScanOf, ObjAt, BadScan, Selected, Trap;
    lost := if ObjAt(src, bare).Some? then bare else given;
    var copy := BadScan(e, src, pipe, bare, lost);
    var m := CopyRun(e, src, At(Marked(e, s.dest), s.held), copy, pipe);
    c := Scans(Listing(e, s.dest), copy, [bare] + Listing(e, m.dest));
    BareCopied(e, src, pipe, s, c, bare, lost);
    ScanSelects(e, src, copy);
    CopyPhaseSafe(e, src, pipe, s, c);
    TrapSprings(e, pipe, m, bare, lost);
    ListingScans(e, s.dest, s.dest);
  }

  lemma ScanSelects(e: Env, s: Store, ks: seq<Key>)
    requires ScanOf(e, s, s, ks)
    ensures Selected(e, ks)
  {
  }

  lemma ListingScans(e: Env, s: Store, after: Store)
    ensures ScanOf(e, s, after, Listing(e, s))
    ensures forall k | k in s && e.inScope(k) :: ScanOf(e, s, after, [k] + Listing(e, s))
  {
  }

  /** With a callback that agrees to everything, the runs of a synchronisation all converge, whatever the window and
      the order and repetitions of the scans, exactly when each selected record of the destination holds an object or
      the source has no selected object. */
  lemma SyncExact(e: Env, src: Store, pipe: nat, s: At)
    requires AcceptsAll(e) && Filed(src) && Filed(s.dest) && Fetched(e, s.held)
    ensures (forall c | Possible(e, src, pipe, s, c) :: Converged(e, src, s.dest, Run(e, src, pipe, s, c).dest)) <==>
            Full(e, s.dest) || NoneSelected(e, src)
  {
    hide AcceptsAll, Filed, Fetched, Run, Possible, Converged;
    if Full(e, s.dest) || NoneSelected(e, src) {
      forall c | Possible(e, src, pipe, s, c) ensures Converged(e, src, s.dest, Run(e, src, pipe, s, c).dest) {
        if NoneSelected(e, src) {
          RunEmpties(e, src, pipe, s, c);
        } else {
          RunFinal(e, src, pipe, s, c);
          Converges(e, src, s.dest, Run(e, src, pipe, s, c).dest);
        }
      }
    } else {
      var bare :| bare in s.dest && e.inScope(bare) && s.dest[bare].obj.None?;
      var given :| e.inScope(given) && ObjAt(src, given).Some?;
      var c, lost := RunLoses(e, src, pipe, s, bare, given);
      NotConverged(e, src, s.dest, Run(e, src, pipe, s, c).dest, lost);
    }
  }

  lemma NotConverged(e: Env, src: Store, d: Store, s: Store, lost: Key)
    requires e.inScope(lost) && ObjAt(src, lost).Some? && lost !in s
    ensures !Converged(e, src, d, s)
  {
  }

  /** What the copy phase leaves for a sweep that begins with the bare record. */
  ghost predicate Trap(s: At, bare: Key, lost: Key) {
    DirtyAt(s.dest, bare) &&
    if lost == bare then Has(s.dest, bare) else s.dest[bare].obj.None? && s.held.key == lost
  }

  lemma BareCopied(e: Env, src: Store, pipe: nat, s: At, c: Scans, bare: Key, lost: Key)
    requires AcceptsAll(e) && Filed(src) && Filed(s.dest)
    requires e.inScope(bare) && bare in s.dest && s.dest[bare].obj.None? && e.inScope(lost) && ObjAt(src, lost).Some?
    requires (ObjAt(src, bare).Some? ==> lost == bare) && c.copy == BadScan(e, src, pipe, bare, lost)
    ensures Trap(CopyPhase(e, src, pipe, s, c), bare, lost)
  {
    hide AcceptsAll, CopyRun;
    var d1 := Marked(e, s.dest);
    MarkSafe(e, src, s.dest);
    if ObjAt(src, bare).Some? {
      BareFilled(e, src, At(d1, s.held), Listing(e, src - {bare}), pipe, bare);
    } else {
      CopyFrame(e, src, At(d1, s.held), c.copy, pipe, bare);
      CopyHolds(e, src, At(d1, s.held), Listing(e, src), pipe, lost);
    }
  }

  lemma BareSweeps(e: Env, s: At, bare: Key, lost: Key)
    requires AcceptsAll(e) && Trap(s, bare, lost)
    ensures lost !in SweepOne(e, s.dest, s.held, bare, DirtyAt(s.dest, bare)).0
  {
  }

  lemma TrapSprings(e: Env, pipe: nat, s: At, bare: Key, lost: Key)
    requires AcceptsAll(e) && Filed(s.dest) && Fetched(e, s.held) && e.inScope(bare) && Trap(s, bare, lost)
    ensures var ks := [bare] + Listing(e, s.dest);
            && ScanOf(e, s.dest, SweepRun(e, s, ks, pipe).dest, ks) && Selected(e, ks)
            && lost !in SweepRun(e, s, ks, pipe).dest
  {
    hide AcceptsAll, Filed, Fetched, SweepRun, SweepOne;
    var ks := [bare] + Listing(e, s.dest);
    ListingScans(e, s.dest, SweepRun(e, s, ks, pipe).dest);
    BareSweeps(e, s, bare, lost);
    SweepHead(e, s, ks, pipe, lost);
  }

  class Synchroniser {
    const env: Env
    const src: Store
    const pipe: nat
    var dest: Store
    var held: Obj
    var keyCache: seq<Key>
    var srcReplies: seq<Option<Obj>>
    var destReplies: seq<Option<Obj>>
    var markReplies: seq<bool>

    constructor (env: Env, src: Store, dest: Store, pipe: nat)
      ensures this.env == env && this.src == src && this.dest == dest && this.pipe == pipe
      ensures Idle() && Fetched(env, held)
    {
      this.env, this.src, this.dest, this.pipe := env, src, dest, pipe;
      held, keyCache, srcReplies, destReplies, markReplies := Obj([], []), [], [], [], [];
    }

    /** Nothing was asked that is still unanswered. */
    predicate Idle()
      reads this
    {
      keyCache == [] && srcReplies == [] && destReplies == [] && markReplies == []
    }

    function State(): At
      reads this
    {
      At(dest, held)
    }

    method Mark(ks: seq<Key>)
      requires ScanOf(env, dest, dest, ks)
      modifies this`dest
      ensures dest == Marked(env, old(dest))
    {
      ghost var d := dest;
      var ix := 0;
      while ix < |ks|
        invariant ix <= |ks|
        invariant dest.Keys == d.Keys
        invariant forall k | k in d :: dest[k] == if k in ks[..ix] then Rec(d[k].obj, true) else d[k]
      {
        dest := SetDirty(dest, ks[ix]);
        ix := ix + 1;
      }
      assert ks[..ix] == ks;
    }

    method Copy(ks: seq<Key>)
      requires Idle()
      modifies this
      ensures Idle() && State() == CopyRun(env, src, old(State()), ks, pipe)
    {
      hide CopyRun, CopyWindow, ObjAt;
      var ix := 0;
      ghost var from := 0;
      while ix < |ks|
        invariant from <= ix <= |ks| && markReplies == [] && ix - from < Width(pipe)
        invariant keyCache == ks[from..ix] && CopyAsked()
        invariant CopyRun(env, src, State(), ks[from..], pipe) == CopyRun(env, src, old(State()), ks, pipe)
      {
        keyCache := keyCache + [ks[ix]];
        destReplies := destReplies + [ObjAt(dest, ks[ix])];
        srcReplies := srcReplies + [ObjAt(src, ks[ix])];
        ix := ix + 1;
        assert keyCache == ks[from..ix];
        if |keyCache| >= pipe {
          CopyNext(env, src, State(), ks, from, ix, pipe);
          DrainCopy();
          from := ix;
        }
      }
      CopyNext(env, src, State(), ks, from, ix, pipe);
      DrainCopy();
    }

    /** The replies waiting are those of the keys asked for, and the destination has not changed since. */
    ghost predicate CopyAsked()
      reads this
    {
      && |destReplies| == |srcReplies| == |keyCache|
      && (forall i | 0 <= i < |keyCache| :: srcReplies[i] == ObjAt(src, keyCache[i]))
      && (forall i | 0 <= i < |keyCache| :: destReplies[i] == ObjAt(dest, keyCache[i]))
    }

    method DrainCopy()
      requires CopyAsked()
      modifies this
      ensures State() == CopyWindow(env, src, old(dest), old(State()), old(keyCache))
      ensures keyCache == [] && srcReplies == [] && destReplies == [] && markReplies == old(markReplies)
    {
      hide CopyOne, ObjAt;
      var at := 0;
      while at < |keyCache|
        invariant at <= |keyCache| && keyCache == old(keyCache) && markReplies == old(markReplies)
        invariant srcReplies == old(srcReplies)[at..] && destReplies == old(destReplies)[at..]
        invariant CopyWindow(env, src, old(dest), State(), keyCache[at..]) ==
                  CopyWindow(env, src, old(dest), old(State()), keyCache)
      {
        var k, inDest, inSrc := keyCache[at], destReplies[0], srcReplies[0];
        destReplies, srcReplies := destReplies[1..], srcReplies[1..];
        if inDest.Some? {
          held := inDest.value;
        }
        dest := CopyOne(env, dest, k, inSrc, inDest);
        assert keyCache[at..][1..] == keyCache[at + 1..];
        at := at + 1;
      }
      keyCache := [];
    }

    method Sweep(ks: seq<Key>)
      requires Idle()
      modifies this
      ensures Idle() && State() == SweepRun(env, old(State()), ks, pipe)
    {
      hide SweepRun, SweepWindow, DirtyAt;
      var ix := 0;
      ghost var from := 0;
      while ix < |ks|
        invariant from <= ix <= |ks| && srcReplies == [] && destReplies == [] && ix - from < Width(pipe)
        invariant keyCache == ks[from..ix] && SweepAsked()
        invariant SweepRun(env, State(), ks[from..], pipe) == SweepRun(env, old(State()), ks, pipe)
      {
        keyCache := keyCache + [ks[ix]];
        markReplies := markReplies + [DirtyAt(dest, ks[ix])];
        ix := ix + 1;
        assert keyCache == ks[from..ix];
        if |keyCache| >= pipe {
          SweepNext(env, State(), ks, from, ix, pipe);
          DrainSweep();
          from := ix;
        }
      }
      SweepNext(env, State(), ks, from, ix, pipe);
      DrainSweep();
    }

    ghost predicate SweepAsked()
      reads this
    {
      |markReplies| == |keyCache| && forall i | 0 <= i < |keyCache| :: markReplies[i] == DirtyAt(dest, keyCache[i])
    }

    method DrainSweep()
      requires SweepAsked()
      modifies this
      ensures State() == SweepWindow(env, old(dest), old(State()), old(keyCache))
      ensures keyCache == [] && markReplies == [] && srcReplies == old(srcReplies) && destReplies == old(destReplies)
    {
      hide SweepOne, DirtyAt;
      var at := 0;
      while at < |keyCache|
        invariant at <= |keyCache| && keyCache == old(keyCache)
        invariant srcReplies == old(srcReplies) && destReplies == old(destReplies)
        invariant markReplies == old(markReplies)[at..]
        invariant SweepWindow(env, old(dest), State(), keyCache[at..]) ==
                  SweepWindow(env, old(dest), old(State()), keyCache)
      {
        var k, marked := keyCache[at], markReplies[0];
        markReplies := markReplies[1..];
        var (s, h) := SweepOne(env, dest, held, k, marked);
        dest, held := s, h;
        assert keyCache[at..][1..] == keyCache[at + 1..];
        at := at + 1;
      }
      keyCache := [];
    }

    /** The whole run, on what the three scans list.  Whatever the destination holds, only selected keys change, and they
        hold what one side had; and if each selected record of the destination holds an object, and the scans list
        what they should, the result is the final state. */
    method Sync(c: Scans)
      requires Idle() && Filed(src) && Filed(dest) && Fetched(env, held)
      requires ScanOf(env, dest, dest, c.mark) && Selected(env, c.copy) && Selected(env, c.sweep)
      modifies this
      ensures Idle() && State() == Run(env, src, pipe, old(State()), c)
      ensures Safe(env, src, old(dest), dest) && Fetched(env, held)
      ensures Full(env, old(dest)) && Possible(env, src, pipe, old(State()), c) ==> IsFinal(env, src, old(dest), dest)
    {
      hide Safe, IsFinal, Filed, Fetched, Possible, CopyRun, SweepRun, Marked, Full;
      ghost var s := State();
      Mark(c.mark);
      Copy(c.copy);
      Sweep(c.sweep);
      RunSafe(env, src, pipe, s, c);
      if Full(env, s.dest) && Possible(env, src, pipe, s, c) {
        RunFinal(env, src, pipe, s, c);
      }
    }
  }

  lemma CopyNext(e: Env, src: Store, s: At, ks: seq<Key>, from: nat, ix: nat, pipe: nat)
    requires from <= ix <= |ks| && (ix == |ks| || ix - from == Width(pipe)) && ix - from <= Width(pipe)
    ensures CopyRun(e, src, s, ks[from..], pipe) ==
            CopyRun(e, src, CopyWindow(e, src, s.dest, s, ks[from..ix]), ks[ix..], pipe)
    ensures ix == |ks| ==> CopyRun(e, src, s, ks[from..], pipe) == CopyWindow(e, src, s.dest, s, ks[from..ix])
  {
    hide CopyOne, ObjAt;
    var rest := ks[from..];
    assert rest[..ix - from] == ks[from..ix] && rest[ix - from..] == ks[ix..];
  }

  lemma SweepNext(e: Env, s: At, ks: seq<Key>, from: nat, ix: nat, pipe: nat)
    requires from <= ix <= |ks| && (ix == |ks| || ix - from == Width(pipe)) && ix - from <= Width(pipe)
    ensures SweepRun(e, s, ks[from..], pipe) ==
            SweepRun(e, SweepWindow(e, s.dest, s, ks[from..ix]), ks[ix..], pipe)
    ensures ix == |ks| ==> SweepRun(e, s, ks[from..], pipe) == SweepWindow(e, s.dest, s, ks[from..ix])
  {
    hide SweepOne, DirtyAt;
    var rest := ks[from..];
    assert rest[..ix - from] == ks[from..ix] && rest[ix - from..] == ks[ix..];
  }

  /** None of these keys has a mark and no object. */
  ghost predicate NoneBare(d: Store, ks: set<Key>) {
    forall k | k in ks && DirtyAt(d, k) :: d[k].obj.Some?
  }

  lemma FullNoneBare(e: Env, d: Store, ks: seq<Key>)
    requires Full(e, d) && Selected(e, ks)
    ensures NoneBare(d, KeySet(ks))
  {
  }

  lemma KeySplit(ks: seq<Key>, n: nat)
    requires n <= |ks|
    ensures KeySet(ks[..n]) + KeySet(ks[n..]) == KeySet(ks)
  {
    assert ks == ks[..n] + ks[n..];
  }

  lemma SafeFiled(e: Env, src: Store, d: Store, s: Store)
    requires Safe(e, src, d, s)
    ensures Filed(s)
  {
  }

  lemma SelectedReply(e: Env, src: Store, d: Store, s: Store, k: Key)
    requires Safe(e, src, d, s) && e.inScope(k)
    ensures ObjAt(s, k).Some? ==> Fetched(e, ObjAt(s, k).value)
  {
  }

  lemma AnswerLater(e: Env, src: Store, d: Store, was: set<Key>, done: set<Key>, k: Key, reply: Option<Obj>)
    requires was <= done && Answer(e, src, d, was, k, reply)
    ensures Answer(e, src, d, done, k, reply)
  {
  }

  lemma MarkAnswerLater(e: Env, d: Store, was: set<Key>, done: set<Key>, k: Key, marked: bool)
    requires was <= done && MarkAnswer(e, d, was, k, marked)
    ensures MarkAnswer(e, d, done, k, marked)
  {
  }
}
