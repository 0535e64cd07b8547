/** The object: a key in front of a growable buffer of attributes that is edited in place. */
module CpsObject {
  import opened Bytes
  import opened Tlv
  import opened TlvPath
  import opened Merge
  import Compact

  const DEF_SIZE: nat := 512
  const STEP_SIZE: nat := 128

  /** No allocator hands out more than half of the address space. */
  const MAX_ALLOC: nat := 0x7fff_ffff_ffff_ffff

  lemma {:induction false} NestSize(p: path, d: seq<byte>)
    ensures |Nest(p, d)| == Headers(|p|) + |d|
    decreases |p|
  {
    hide Header;
    assert HDR == 16;
    if |p| > 1 {
      NestSize(p[1..], d);
    }
  }

  /** What is written for the missing containers and the leaf when `room` bytes were reckoned for all of it. */
  function Written(p: seq<nat>, d: seq<byte>, room: int): seq<byte>
    requires |p| >= 1
    decreases |p|
  {
    if |p| == 1 then Header(p[0], |d|) + d else Header(p[0], room - HDR) + Written(p[1..], d, room - HDR)
  }

  lemma {:induction false} WrittenNest(p: path, d: seq<byte>, room: int)
    ensures |Written(p, d, room)| == |Nest(p, d)|
    ensures room == |Nest(p, d)| ==> Written(p, d, room) == Nest(p, d)
    decreases |p|
  {
    if |p| > 1 {
      WrittenNest(p[1..], d, room - HDR);
    }
  }

  /** The outermost header of a chain of fresh containers. */
  lemma WrittenStep(p: path, d: seq<byte>, room: int, w: seq<byte>)
    requires |p| > 1
    ensures var h := Header(p[0], room - HDR);
            && |Written(p, d, room)| == HDR + |Written(p[1..], d, room - HDR)|
            && w + Written(p, d, room) == (w + h) + Written(p[1..], d, room - HDR)
  {
    var h := Header(p[0], room - HDR);
    assert w + (h + Written(p[1..], d, room - HDR)) == (w + h) + Written(p[1..], d, room - HDR);
  }

  lemma LastWritten(p: path, d: seq<byte>, room: int)
    requires |p| == 1
    ensures Written(p, d, room) == Header(p[0], |d|) + d
  {
  }

  // ---- memory ----

  /** `s` copied over the bytes of `x` from `at` on. */
  function Overwrite(x: seq<byte>, at: nat, s: seq<byte>): (y: seq<byte>)
    requires at + |s| <= |x|
    ensures |y| == |x|
    decreases |s|
  {
    if s == [] then x else Overwrite(x[at := s[0]], at + 1, s[1..])
  }

  lemma {:induction false} OverwriteAt(x: seq<byte>, at: nat, s: seq<byte>)
    requires at + |s| <= |x|
    ensures forall i | 0 <= i < |x| ::
              Overwrite(x, at, s)[i] == if at <= i < at + |s| then s[i - at] else x[i]
    decreases |s|
  {
    if s != [] {
      OverwriteAt(x[at := s[0]], at + 1, s[1..]);
    }
  }

  /** Bytes beyond what is written do not matter. */
  lemma OverwriteTake(x: seq<byte>, at: nat, s: seq<byte>, n: nat)
    requires at + |s| <= n <= |x|
    ensures Overwrite(x, at, s)[..n] == Overwrite(x[..n], at, s)
  {
    OverwriteAt(x, at, s);
    OverwriteAt(x[..n], at, s);
  }

  lemma OverwriteSlices(x: seq<byte>, at: nat, s: seq<byte>)
    requires at + |s| <= |x|
    ensures var y := Overwrite(x, at, s);
            y[..at] == x[..at] && y[at..at + |s|] == s && y[at + |s|..] == x[at + |s|..]
  {
    OverwriteAt(x, at, s);
  }

  lemma OverwriteEnd(x: seq<byte>, at: nat, s: seq<byte>)
    requires at + |s| <= |x|
    ensures Overwrite(x, at, s)[..at + |s|] == x[..at] + s
  {
    hide Overwrite;
    OverwriteSlices(x, at, s);
    var y := Overwrite(x, at, s);
    assert y[..at + |s|] == y[..at] + y[at..at + |s|];
  }

  /** Two copies in a row. */
  lemma OverwriteMore(x: seq<byte>, at: nat, s: seq<byte>, r: seq<byte>)
    requires at + |s| + |r| <= |x|
    ensures Overwrite(Overwrite(x, at, s), at + |s|, r) == Overwrite(x, at, s + r)
  {
    OverwriteAt(x, at, s);
    OverwriteAt(Overwrite(x, at, s), at + |s|, r);
    OverwriteAt(x, at, s + r);
  }

  /** memcpy */
  method Store(a: array<byte>, at: nat, s: seq<byte>)
    requires at + |s| <= a.Length
    modifies a
    ensures a[..] == Overwrite(old(a[..]), at, s)
  {
    OverwriteAt(a[..], at, s);
    forall i | 0 <= i < |s| {
      a[at + i] := s[i];
    }
  }

  /** memmove: the two ranges may overlap. */
  method Move(a: array<byte>, dst: nat, src: nat, n: nat)
    requires dst + n <= a.Length && src + n <= a.Length
    modifies a
    ensures a[..] == Overwrite(old(a[..]), dst, old(a[src..src + n]))
  {
    OverwriteAt(a[..], dst, a[src..src + n]);
    forall i | 0 <= i < n {
      a[dst + i] := a[src + i];
    }
  }

  // ---- one step of either pass ----

  lemma WideStep(b: seq<byte>, p: path)
    requires |p| > 1 && FindNext(b, p[0]).Some?
    ensures var o := FindNext(b, p[0]).value;
            o + HDR <= |b| && WideDepth(b, p) == 1 + WideDepth(b[o + HDR..], p[1..])
  {
    var o, v := FindNext(b, p[0]).value, Seek(Parse(b), p[0]).value;
    FindParts(b, p[0]);
    assert b[o + HDR..] == v + After(Parse(b), p[0]);
  }

  /** Where the container that the path enters lies. */
  lemma EnterParts(b: seq<byte>, p: path)
    requires |p| > 1 && FindNext(b, p[0]).Some?
    ensures var o, v := FindNext(b, p[0]).value, Seek(Parse(b), p[0]).value;
            && o + HDR + |v| <= |b| && Len(b[o..]) == |v|
            && b[o + HDR..o + HDR + |v|] == v && b[o..o + WORD] == WORDS.write(p[0])
            && Depth(b, p) == 1 + Depth(v, p[1..])
            && |Tail(b, p)| == |Tail(v, p[1..])| + (|b| - o - HDR - |v|)
  {
    var o, v := FindNext(b, p[0]).value, Seek(Parse(b), p[0]).value;
    FindParts(b, p[0]);
    HeaderAt(b, o, p[0], |v|);
  }

  lemma HeaderAt(b: seq<byte>, o: nat, tag: nat, n: nat)
    requires o + HDR <= |b| && tag < U64 && n < U64 && b[o..o + HDR] == Header(tag, n)
    ensures Len(b[o..]) == n && b[o..o + WORD] == WORDS.write(tag)
  {
    HeaderReads(tag, n, b[o + HDR..]);
    assert b[o..] == Header(tag, n) + b[o + HDR..];
    assert Noted(tag as int);
    assert b[o..o + WORD] == b[o..o + HDR][..WORD];
  }

  /** A tail moved up by `room`, and `n` bytes written in front of it and over it. */
  lemma Inserted(x: seq<byte>, y: seq<byte>, z: seq<byte>, end: nat, room: nat, n: nat, used: nat)
    requires end <= used && room <= n && end + n <= used + room <= |x| == |y| == |z|
    requires y[..end + room] == x[..end + room] && y[end + room..][..used - end] == x[end..used]
    requires z[..end] == y[..end] && z[end + n..] == y[end + n..]
    ensures z[..used + room] == x[..end] + z[end..end + n] + x[end + (n - room)..used]
  {
    assert y[..end] == y[..end + room][..end] == x[..end + room][..end] == x[..end];
    assert z[end + n..used + room] == z[end + n..][..used + room - end - n] == y[end + n..used + room];
    assert y[end + n..used + room] == y[end + room..][..used - end][n - room..] == x[end..used][n - room..];
    assert x[end..used][n - room..] == x[end + (n - room)..used];
    assert z[..used + room] == z[..end] + z[end..end + n] + z[end + n..used + room];
  }

  lemma InsertDone(x: seq<byte>, y: seq<byte>, z: seq<byte>, end: nat, room: nat, w: seq<byte>, used: nat)
    requires end <= used && room <= |w| && end + |w| <= used + room <= |x| == |y| == |z|
    requires y == Overwrite(x, end + room, x[end..used])
    requires z[..end] == y[..end] && z[end..end + |w|] == w && z[end + |w|..] == y[end + |w|..]
    ensures z[..used + room] == x[..used][..end] + w + x[..used][end + (|w| - room)..]
  {
    hide Overwrite;
    OverwriteSlices(x, end + room, x[end..used]);
    assert y[end + room..][..used - end] == y[end + room..end + room + (used - end)];
    Inserted(x, y, z, end, room, |w|, used);
    assert x[..used][..end] == x[..end] && x[..used][end + (|w| - room)..] == x[end + (|w| - room)..used];
  }

  lemma SubSlice(b: seq<byte>, t: nat, n: nat, i: nat, j: nat)
    requires t + n <= |b| && i <= j <= n
    ensures b[t..t + n][i..j] == b[t + i..t + j]
  {
    var s := b[t..t + n];
    var x, y := s[i..j], b[t + i..t + j];
    forall k | 0 <= k < j - i ensures x[k] == y[k] {
      assert x[k] == s[i + k] == b[t + (i + k)];
      assert y[k] == b[(t + i) + k];
    }
    assert x == y;
  }

  lemma LookupNothing(b: seq<byte>)
    ensures Lookup(b, []) == None
  {
  }

  /** One step of a lookup, by offsets. */
  lemma LookupStep(b: seq<byte>, q: seq<nat>)
    requires q != []
    ensures match FindNext(b, q[0])
            case None => Lookup(b, q).None?
            case Some(o) =>
              && o + HDR <= |b|
              && var n := Len(b[o..]);
                 && o + HDR + n <= |b|
                 && var v := b[o + HDR..o + HDR + n];
                    Lookup(b, q) == if |q| == 1 then Some(v) else Lookup(v, q[1..])
  {
    hide Parse, Before, Len;
    if FindNext(b, q[0]).Some? {
      FindParts(b, q[0]);
      HeaderAt(b, FindNext(b, q[0]).value, q[0], |Seek(Parse(b), q[0]).value|);
    }
  }

  /** The bytes a splice leaves in place around that container. */
  lemma SpliceParts(b: seq<byte>, p: path, ins: seq<byte>)
    requires |p| > 1 && FindNext(b, p[0]).Some?
    ensures var o, v := FindNext(b, p[0]).value, Seek(Parse(b), p[0]).value;
            && o + HDR + |v| <= |b|
            && Splice(b, p, ins) ==
               b[..o] + (Header(p[0], |v| + |ins|) + Splice(v, p[1..], ins)) + b[o + HDR + |v|..]
  {
    hide Parse, Flat, Put, Seek, Before, Header, Splice;
    var v := Seek(Parse(b), p[0]).value;
    SpliceDown(b, p, ins);
    PutAt(b, p[0], Splice(v, p[1..], ins));
    SpliceSize(v, p[1..], ins);
  }

  lemma SpliceDown(b: seq<byte>, p: path, ins: seq<byte>)
    requires |p| > 1 && Seek(Parse(b), p[0]).Some?
    ensures Splice(b, p, ins) == Flat(Put(Parse(b), p[0], Splice(Seek(Parse(b), p[0]).value, p[1..], ins)))
  {
    hide Parse, Flat, Put, Seek;
  }

  /** In the window `b` of `x` at `t`, the word `g` at offset `o` stands in front of the word that `w`
      replaces, and `v` bytes of value stand behind it. */
  lemma PatchBytes(x: seq<byte>, t: nat, b: seq<byte>, o: nat, v: nat, g: seq<byte>, w: seq<byte>)
    requires |g| == |w| == WORD && o + HDR + v <= |b| && t + |b| <= |x| && x[t..t + |b|] == b
    requires b[o..o + WORD] == g
    ensures var y, t' := Overwrite(x, t + o + WORD, w), t + o + HDR;
            && y[..t'] == x[..t] + b[..o] + (g + w)
            && y[t'..t' + v] == b[o + HDR..o + HDR + v]
            && y[t' + v..] == b[o + HDR + v..] + x[t + |b|..]
  {
    hide Overwrite;
    var l, gone, v', r := x[..t] + b[..o] + g, b[o + WORD..o + HDR], b[o + HDR..o + HDR + v], b[o + HDR + v..];
    var c := x[t + |b|..];
    FivePieces(b, o, v);
    assert x == x[..t] + b + c;
    Regroup7(x[..t], b[..o], g, gone, v', r, c);
    OverwriteMid(l, gone, v' + (r + c), w);
    assert l + w == x[..t] + b[..o] + (g + w);
    ThreeSlices(l + w, v', r + c);
  }

  lemma FivePieces(b: seq<byte>, o: nat, v: nat)
    requires o + HDR + v <= |b|
    ensures b == b[..o] + b[o..o + WORD] + b[o + WORD..o + HDR] + b[o + HDR..o + HDR + v] + b[o + HDR + v..]
  {
    assert b[..o] + b[o..o + WORD] == b[..o + WORD];
    assert b[..o + WORD] + b[o + WORD..o + HDR] == b[..o + HDR];
    assert b[..o + HDR] + b[o + HDR..o + HDR + v] == b[..o + HDR + v];
  }

  lemma Regroup7(a: seq<byte>, b: seq<byte>, c: seq<byte>, d: seq<byte>, e: seq<byte>, f: seq<byte>, g: seq<byte>)
    ensures a + (b + c + d + e + f) + g == (a + b + c) + d + (e + (f + g))
  {
  }

  lemma ThreeSlices(p: seq<byte>, v: seq<byte>, r: seq<byte>)
    ensures var y := p + (v + r); y[..|p|] == p && y[|p|..|p| + |v|] == v && y[|p| + |v|..] == r
  {
    var y := p + (v + r);
    assert y[|p|..] == v + r && y[|p|..|p| + |v|] == y[|p|..][..|v|];
  }

  lemma OverwriteMid(l: seq<byte>, gone: seq<byte>, r: seq<byte>, w: seq<byte>)
    requires |gone| == |w|
    ensures Overwrite(l + gone + r, |l|, w) == l + w + r
  {
    hide Overwrite;
    var x := l + gone + r;
    OverwriteSlices(x, |l|, w);
    var y, e := Overwrite(x, |l|, w), |l| + |w|;
    assert x[..|l|] == l && x[e..] == r;
    assert y == y[..|l|] + y[|l|..e] + y[e..];
  }

  lemma PatchAround(x: seq<byte>, t: nat, b: seq<byte>, o: nat, v: nat, g: seq<byte>, w: seq<byte>, s: seq<byte>)
    requires |g| == |w| == WORD && o + HDR + v <= |b| && t + |b| <= |x| && x[t..t + |b|] == b
    requires b[o..o + WORD] == g
    ensures var y, t' := Overwrite(x, t + o + WORD, w), t + o + HDR;
            && y[t'..t' + v] == b[o + HDR..o + HDR + v]
            && y[..t'] + s + y[t' + v..] == x[..t] + (b[..o] + ((g + w) + s) + b[o + HDR + v..]) + x[t + |b|..]
  {
    PatchBytes(x, t, b, o, v, g, w);
    Regroup6(x[..t], b[..o], g + w, s, b[o + HDR + v..], x[t + |b|..]);
  }

  /** Writing the new length of the container entered turns the splice of the level above into the splice
      of that container. */
  lemma PatchStep(x: seq<byte>, t: nat, b: seq<byte>, p: path, ins: seq<byte>, o: nat, v: seq<byte>)
    requires |p| > 1 && t + |b| <= |x| && x[t..t + |b|] == b
    requires FindNext(b, p[0]) == Some(o) && Seek(Parse(b), p[0]) == Some(v)
    requires o + HDR + |v| <= |b|
    ensures t + o + HDR <= |x| && |WORDS.write(|v| + |ins|)| == WORD
    ensures var y, t' := Overwrite(x, t + o + WORD, WORDS.write(|v| + |ins|)), t + o + HDR;
            && y[t'..t' + |v|] == v
            && y[..t'] + Splice(v, p[1..], ins) + y[t' + |v|..] == x[..t] + Splice(b, p, ins) + x[t + |b|..]
  {
    hide Parse, Splice, Overwrite, Tail, Depth, Seek, FindNext, Len;
    EnterParts(b, p);
    SpliceParts(b, p, ins);
    assert Noted(p[0] as int) && Noted(|v| + |ins|);
    PatchAround(x, t, b, o, |v|, WORDS.write(p[0]), WORDS.write(|v| + |ins|), Splice(v, p[1..], ins));
  }

  /** The window of `y` at `t'` needs the same bytes inserted, below `q`, as the window of `x` at `t` did below
      `p`, and as much follows it. */
  ghost predicate SameResult(x: seq<byte>, t: nat, n: nat, p: seq<nat>,
                             y: seq<byte>, t': nat, n': nat, q: seq<nat>, ins: seq<byte>)
    requires t + n <= |x| && t' + n' <= |y|
  {
    && |x| == |y|
    && y[..t'] + Splice(y[t'..t' + n'], q, ins) + y[t' + n'..] == x[..t] + Splice(x[t..t + n], p, ins) + x[t + n..]
    && |Tail(x[t..t + n], p)| + (|x| - t - n) == |Tail(y[t'..t' + n'], q)| + (|y| - t' - n')
  }

  lemma WholeView(b: seq<byte>, p: path, ins: seq<byte>)
    ensures b[0..0 + |b|] == b && p[0..] == p
    ensures SameResult(b, 0, |b|, p, b, 0, |b|, p[0..], ins)
  {
  }

  /** Where the descent ends, `ins` goes behind the window. */
  lemma EndView(b: seq<byte>, p: path, y: seq<byte>, t: nat, n: nat, q: path, ins: seq<byte>)
    requires t + n <= |y| && SameResult(b, 0, |b|, p, y, t, n, q, ins)
    requires |q| == 1 || FindNext(y[t..t + n], q[0]).None?
    ensures y[..t + n] + ins + y[t + n..] == Splice(b, p, ins)
    ensures t + n + |Tail(b, p)| == |y|
  {
    hide Splice, Tail, FindNext;
    assert b[0..0 + |b|] == b && b[..0] == [] && b[|b|..] == [];
    assert [] + Splice(b, p, ins) + [] == Splice(b, p, ins);
    SpliceEnds(y[t..t + n], q, ins);
    EndParts(y, t, n, ins);
  }

  lemma SpliceEnds(b: seq<byte>, q: path, ins: seq<byte>)
    requires |q| == 1 || FindNext(b, q[0]).None?
    ensures Splice(b, q, ins) == b + ins && Tail(b, q) == []
  {
    hide Parse, Seek, Before;
  }

  lemma EndParts(y: seq<byte>, t: nat, n: nat, ins: seq<byte>)
    requires t + n <= |y|
    ensures y[..t] + (y[t..t + n] + ins) + y[t + n..] == y[..t + n] + ins + y[t + n..]
  {
    assert y[..t] + y[t..t + n] == y[..t + n];
    assert y[..t] + (y[t..t + n] + ins) == (y[..t] + y[t..t + n]) + ins;
  }

  lemma Regroup6(a: seq<byte>, b: seq<byte>, c: seq<byte>, d: seq<byte>, e: seq<byte>, f: seq<byte>)
    ensures (a + b + c) + d + (e + f) == a + (b + (c + d) + e) + f
  {
  }

  /** Everything in front of the place where the path ends, with the length of each container entered grown by `n`. */
  function Patched(b: seq<byte>, p: seq<nat>, n: nat): seq<byte>
    decreases |p|
  {
    if |p| <= 1 then b
    else
      match Seek(Parse(b), p[0])
      case None => b
      case Some(v) => Before(Parse(b), p[0]) + (Header(p[0], |v| + n) + Patched(v, p[1..], n))
  }

  /** A splice is what is in front of the place, what is inserted, and what is behind. */
  lemma {:induction false} SpliceForm(b: seq<byte>, p: path, ins: seq<byte>)
    ensures Splice(b, p, ins) == Patched(b, p, |ins|) + ins + Tail(b, p)
    ensures |Patched(b, p, |ins|)| + |Tail(b, p)| == |b|
    decreases |p|
  {
    hide Parse, Header;
    SpliceSize(b, p, ins);
    if |p| > 1 && Seek(Parse(b), p[0]).Some? {
      var v := Seek(Parse(b), p[0]).value;
      SpliceForm(v, p[1..], ins);
      SpliceSize(v, p[1..], ins);
      FlatParse(b);
      PutParts(Parse(b), p[0], Splice(v, p[1..], ins));
      FormDown(Before(Parse(b), p[0]), Header(p[0], |v| + |ins|), Patched(v, p[1..], |ins|), ins,
               Tail(v, p[1..]), After(Parse(b), p[0]));
    } else {
      assert b + ins + [] == b + ins;
    }
  }

  lemma FormParts(u: seq<byte>, end: nat, ins: seq<byte>, x: seq<byte>, t: seq<byte>)
    requires end <= |u| && u[..end] + ins + u[end..] == x + ins + t && end + |t| == |u| == |x| + |t|
    ensures u[..end] == x && u[end..] == t
  {
    var z := u[..end] + ins + u[end..];
    assert u[..end] == z[..end] == (x + ins + t)[..end] == x;
    assert u[end..] == z[end + |ins|..] == (x + ins + t)[end + |ins|..] == t;
  }

  lemma CutTail(u: seq<byte>, end: nat, n: nat)
    requires end + n <= |u|
    ensures u[end..][n..] == u[end + n..]
  {
  }

  lemma FormDown(l: seq<byte>, h: seq<byte>, x: seq<byte>, ins: seq<byte>, t: seq<byte>, r: seq<byte>)
    ensures l + (h + (x + ins + t)) + r == (l + (h + x)) + ins + (t + r)
  {
  }

  lemma PlainAdd(b: seq<byte>, tag: nat, d: seq<byte>)
    ensures AddAt(b, [tag], d) == b + (Header(tag, |d|) + d)
  {
    assert [tag][0..] == [tag];
  }

  lemma StillExact(b: seq<byte>, p: path, d: seq<byte>)
    requires |AddAt(b, p, d)| < U64
    ensures Exact(b) ==> Exact(AddAt(b, p, d))
  {
    hide *;
    if Exact(b) {
      AddExact(b, p, d);
    }
  }

  /** Removing attributes leaves what is behind the last one. */
  lemma DropExact(b: seq<byte>, b': seq<byte>, ids: set<nat>)
    requires Parse(b') == Drop(Parse(b), ids)
    ensures Exact(b') <==> Exact(b)
  {
    hide Parse;
    FlatParse(b);
    DropStorable(Parse(b), ids);
  }

  lemma MergedExact(d: seq<byte>, s: seq<byte>, removeDup: bool)
    requires Exact(d) && Exact(s)
    ensures Exact(Merged(d, s, removeDup))
  {
    hide Parse;
    if s != [] {
      if removeDup && d != [] {
        MergedParses(d, s);
      } else {
        ParseAppend(d, s);
        FlatParse(d);
        FlatParse(s);
        JoinStorable(Parse(d), Parse(s));
      }
    }
  }

  /** The space an embedded add asks for. */
  function Wanted(b: seq<byte>, p: path, d: seq<byte>): nat {
    |d| + Headers(|p| - WideDepth(b, p))
  }

  /** How much more is written than room was made for: a header for each container that only the first pass saw. */
  function Excess(b: seq<byte>, p: path): int {
    Headers(WideDepth(b, p)) - Headers(Depth(b, p))
  }

  /** What is written stays inside the object. */
  predicate Within(b: seq<byte>, p: path) {
    Excess(b, p) <= |Tail(b, p)|
  }

  /** It does if the passes agree, and for every object that consists of whole attributes. */
  lemma WithinHolds(b: seq<byte>, p: path)
    requires WideDepth(b, p) == Depth(b, p) || Exact(Deepest(b, p))
    ensures Within(b, p)
  {
    if WideDepth(b, p) != Depth(b, p) {
      PassesAgree(b, p);
    }
  }

  /** What an embedded add leaves: the attributes are written as reckoned, and they take the place of the first bytes
      behind the container, as many as room was lacking for. */
  function Clobbered(b: seq<byte>, p: path, d: seq<byte>): seq<byte>
    requires Within(b, p)
  {
    WideAtLeast(b, p);
    Patched(b, p, Wanted(b, p, d)) + Written(p[Depth(b, p)..], d, Wanted(b, p, d)) + Tail(b, p)[Excess(b, p)..]
  }

  lemma ExcessFits(b: seq<byte>, p: path, d: seq<byte>)
    ensures 0 <= Excess(b, p) && (Excess(b, p) == 0 <==> WideDepth(b, p) == Depth(b, p))
    ensures |Nest(p[Depth(b, p)..], d)| == Wanted(b, p, d) + Excess(b, p)
  {
    hide WideDepth, Depth;
    NestSize(p[Depth(b, p)..], d);
    WideAtLeast(b, p);
  }

  /** If the passes agree, this is the edit that was meant. */
  lemma ClobberedAgrees(b: seq<byte>, p: path, d: seq<byte>)
    requires WideDepth(b, p) == Depth(b, p)
    ensures Within(b, p) && Clobbered(b, p, d) == AddAt(b, p, d)
  {
    hide Patched, Written, Tail, Splice, Nest, Excess, Wanted;
    ExcessFits(b, p, d);
    var q: path := p[Depth(b, p)..];
    WrittenNest(q, d, Wanted(b, p, d));
    SpliceForm(b, p, Nest(q, d));
    assert Tail(b, p)[0..] == Tail(b, p);
  }

  /** What is written fits the space asked for and the bytes behind the container together. */
  lemma EmbeddedRoom(b: seq<byte>, p: path, d: seq<byte>)
    ensures 0 <= Excess(b, p)
    ensures |Written(p[Depth(b, p)..], d, Wanted(b, p, d))| == Wanted(b, p, d) + Excess(b, p)
  {
    hide Nest, Written, Excess, Tail, Wanted;
    ExcessFits(b, p, d);
    WrittenNest(p[Depth(b, p)..], d, Wanted(b, p, d));
  }

  /** The two passes together. */
  lemma EmbeddedDone(b: seq<byte>, p: path, d: seq<byte>, u: seq<byte>, end: nat, ins: seq<byte>, z: seq<byte>)
    requires Within(b, p)
    requires |ins| == Wanted(b, p, d) && end + |Tail(b, p)| == |u| == |b|
    requires u[..end] + ins + u[end..] == Splice(b, p, ins)
    requires var w := Written(p[Depth(b, p)..], d, Wanted(b, p, d)); var n := end + (|w| - |ins|);
             0 <= n <= |u| && z == u[..end] + w + u[n..]
    ensures z == Clobbered(b, p, d)
    ensures z == AddAt(b, p, d) <==> WideDepth(b, p) == Depth(b, p)
  {
    hide Nest, Written, Excess, Tail, Wanted, Patched, Splice, Deepest;
    EmbeddedRoom(b, p, d);
    SpliceForm(b, p, ins);
    FormParts(u, end, ins, Patched(b, p, |ins|), Tail(b, p));
    CutTail(u, end, Excess(b, p));
    if WideDepth(b, p) == Depth(b, p) {
      ClobberedAgrees(b, p, d);
    } else {
      ExcessFits(b, p, d);
      SpliceSize(b, p, Nest(p[Depth(b, p)..], d));
    }
  }

  /** What a merge that runs out of room leaves: the attributes to be replaced are gone already. */
  function Stripped(d: seq<byte>, s: seq<byte>, removeDup: bool): seq<byte> {
    if removeDup && d != [] then Flat(Drop(Parse(d), Tags(Parse(s)))) else d
  }

  /** Removing the bytes of a hit removes that attribute. */
  lemma CutBytes(b: seq<byte>, tag: nat)
    requires FindNext(b, tag).Some?
    ensures var o := FindNext(b, tag).value;
            && o + HDR <= |b| && o + HDR + Len(b[o..]) <= |b|
            && Parse(b[..o] + b[o + (HDR + Len(b[o..]))..]) == Cut(Parse(b), tag)
            && (Exact(b) ==> Complete(Cut(Parse(b), tag)))
  {
    hide Parse;
    FindParts(b, tag);
    HeaderAt(b, FindNext(b, tag).value, tag, |Seek(Parse(b), tag).value|);
    FlatParse(b);
    CutParts(Parse(b), tag);
    ParseFlat(Cut(Parse(b), tag));
  }

  class Object {
    var key: seq<byte>
    var data: array<byte>
    var len: nat
    var remain: nat
    var owned: bool  // the buffer was allocated by this library

    ghost predicate Valid()
      reads this
    {
      |key| == KEY_LEN && data.Length == len && remain <= len && len + KEY_LEN <= MAX_ALLOC
    }

    /** The attributes stored in the object. */
    ghost function Used(): seq<byte>
      requires Valid()
      reads this, data
    {
      data[..len - remain]
    }

    /** What is sent for the object. */
    ghost function Serialised(): seq<byte>
      requires Valid()
      reads this, data
    {
      key + Used()
    }

    constructor Create()
      ensures Valid() && fresh(data) && owned && len == DEF_SIZE
      ensures Used() == []
    {
      key := seq(KEY_LEN, _ => 0);
      data := new byte[DEF_SIZE];
      len, remain, owned := DEF_SIZE, DEF_SIZE, true;
    }

    /** An object in memory of the caller's: it cannot grow. */
    constructor Init(room: nat)
      requires room + KEY_LEN <= MAX_ALLOC
      ensures Valid() && fresh(data) && !owned && len == room
      ensures Used() == []
    {
      key := seq(KEY_LEN, _ => 0);
      data := new byte[room];
      len, remain, owned := room, room, false;
    }

    // ---- space ----

    /** Callers may shrink the buffer, but not below what is used: the space that is said to remain then wraps around to
        more than there is. */
    method Realloc(n: nat) returns (ok: bool)
      requires Valid()
      modifies this
      ensures key == old(key) && owned == old(owned)
      ensures ok <==> owned && n + KEY_LEN <= MAX_ALLOC
      ensures if ok then len == n && fresh(data) else data == old(data) && len == old(len) && remain == old(remain)
      ensures ok ==> remain == (old(remain) + n - old(len)) % U64
      ensures Valid() <==> !ok || old(len - remain) <= n
      ensures !ok || old(len - remain) <= n ==> Used() == old(Used())
    {
      if !owned || n + KEY_LEN > MAX_ALLOC {
        return false;
      }
      var p := new byte[n];
      var used := len - remain;
      forall i | 0 <= i < n && i < len {
        p[i] := data[i];
      }
      if used <= n {
        assert p[..used] == data[..used];
      }
      data := p;
      remain := (remain + n - len) % U64;
      len := n;
      return true;
    }

    /** There is, or can be made, room for `n` more bytes. */
    ghost predicate HasRoom(n: nat)
      reads this
    {
      remain < n ==> owned && n + (len - remain) + STEP_SIZE + KEY_LEN <= MAX_ALLOC
    }

    method Reserve(n: nat) returns (ok: bool)
      requires Valid()
      modifies this
      ensures Valid() && key == old(key) && owned == old(owned)
      ensures Used() == old(Used())
      ensures ok <==> old(HasRoom(n))
      ensures ok ==> n <= remain
      ensures data == old(data) || fresh(data)
    {
      ok := true;
      if remain < n {
        ok := Realloc(n + (len - remain) + STEP_SIZE);
      }
    }

    // ---- adding ----

    method AddAttribute(tag: nat, d: seq<byte>) returns (ok: bool)
      requires Valid() && tag < U64
      modifies this, data
      ensures Valid() && key == old(key) && owned == old(owned)
      ensures data == old(data) || fresh(data)
      ensures ok <==> old(HasRoom(HDR + |d|))
      ensures Used() == if ok then AddAt(old(Used()), [tag], d) else old(Used())
      ensures old(Exact(Used())) ==> Exact(Used())
    {
      ok := Reserve(HDR + |d|);
      if !ok {
        return;
      }
      hide AddAt, Exact, Overwrite;
      ghost var b, x := Used(), data[..];
      var at, h := len - remain, Header(tag, |d|) + d;
      OverwriteEnd(x, at, h);
      assert b == x[..at];
      Store(data, at, h);
      remain := remain - HDR - |d|;
      assert Used() == data[..][..at + |h|];
      PlainAdd(b, tag, d);
      StillExact(b, [tag], d);
    }

    /** How deep the first, unbounded pass gets. */
    method FirstPass(p: path) returns (ix: nat)
      requires Valid()
      ensures ix == WideDepth(Used(), p)
    {
      var used := len - remain;
      hide Parse, Seek, After, Before;
      var t: nat, n: nat := 0, used;
      ix := 0;
      ghost var b0: seq<byte>, q: path := Used(), p;
      assert b0[0..] == b0;
      while ix < |p| - 1
        invariant ix <= |p| - 1 && t + n == used == |b0| && q == p[ix..]
        invariant WideDepth(b0, p) == ix + WideDepth(b0[t..], q)
      {
        var b := data[t..t + n];
        assert b == b0[t..] && q[0] == p[ix] && q[1..] == p[ix + 1..];
        var hit := FindNext(b, p[ix]);
        if hit == None {
          break;
        }
        WideStep(b, q);
        assert b[hit.value + HDR..] == b0[t + hit.value + HDR..];
        t, n := t + hit.value + HDR, n - hit.value - HDR;
        q := q[1..];
        ix := ix + 1;
      }
    }

    /** The second pass: the length of every existing container on the path grows by the size of `ins`.
        What is left to do is to insert `ins` at the end of the deepest one. */
    method PatchLengths(p: path, needed: nat, ghost ins: seq<byte>) returns (ix: nat, end: nat)
      requires Valid() && |ins| == needed
      modifies data
      ensures Valid()
      ensures ix == Depth(old(Used()), p)
      ensures end + |Tail(old(Used()), p)| == len - remain
      ensures Used()[..end] + ins + Used()[end..] == Splice(old(Used()), p, ins)
    {
      hide Parse, Splice, Tail;
      var t: nat, n: nat := 0, len - remain;
      ix := 0;
      ghost var b0: seq<byte>, q: path := Used(), p;
      WholeView(b0, p, ins);
      while ix < |p| - 1
        invariant ix <= |p| - 1 && t + n <= len - remain && q == p[ix..]
        invariant SameResult(b0, 0, |b0|, p, Used(), t, n, q, ins)
        invariant Depth(b0, p) == ix + Depth(Used()[t..t + n], q)
      {
        assert q[0] == p[ix] && q[1..] == p[ix + 1..];
        var found, t', n' := PatchOne(t, n, p[ix], needed, q, ins);
        if !found {
          break;
        }
        t, n := t', n';
        q := q[1..];
        ix := ix + 1;
      }
      end := t + n;
      EndView(b0, p, Used(), t, n, q, ins);
    }

    /** One round of the second pass, on the siblings in the `n` bytes from `t` on. */
    method PatchOne(t: nat, n: nat, tag: nat, needed: nat, ghost q: path, ghost ins: seq<byte>)
      returns (found: bool, t': nat, n': nat)
      requires Valid() && |ins| == needed && t + n <= len - remain && |q| > 1 && q[0] == tag
      modifies data
      ensures Valid() && t' + n' <= len - remain
      ensures found <==> FindNext(old(Used())[t..t + n], tag).Some?
      ensures found ==> Depth(old(Used())[t..t + n], q) == 1 + Depth(Used()[t'..t' + n'], q[1..])
      ensures found ==> SameResult(old(Used()), t, n, q, Used(), t', n', q[1..], ins)
      ensures !found ==> Used() == old(Used())
    {
      hide Parse, Splice, Tail, Overwrite, Depth, Len, Before, Seek;
      ghost var x := Used();
      var b := data[t..t + n];
      assert b == x[t..t + n];
      var hit := FindNext(b, tag);
      if hit == None {
        return false, t, n;
      }
      EnterParts(b, q);
      var o := hit.value;
      n' := Len(b[o..]);
      PatchStep(x, t, b, q, ins, o, Seek(Parse(b), tag).value);
      SetLen(t + o, n' + needed);
      found, t' := true, t + o + HDR;
    }

    /** std_tlv_set_len */
    method SetLen(at: nat, n: int)
      requires Valid() && at + HDR <= len - remain
      modifies data
      ensures Valid() && |WORDS.write(n)| == WORD
      ensures Used() == Overwrite(old(Used()), at + WORD, WORDS.write(n))
    {
      assert Noted(n);
      OverwriteTake(data[..], at + WORD, WORDS.write(n), len - remain);
      assert data[..][..len - remain] == Used();
      Store(data, at + WORD, WORDS.write(n));
      assert data[..][..len - remain] == Used();
    }

    /** The missing containers and then the leaf, written from `at` on.  `room` is the size the caller
        reckoned for all of it. */
    method WriteNested(at: nat, p: path, d: seq<byte>, room: int)
      requires Valid() && at + |Written(p, d, room)| <= len
      modifies data
      ensures Valid()
      ensures data[..][..at] == old(data[..])[..at]
      ensures var n := |Written(p, d, room)|;
              data[..][at..at + n] == Written(p, d, room) && data[..][at + n..] == old(data[..])[at + n..]
    {
      hide Overwrite, Written;
      ghost var x, q: path, all := data[..], p, Written(p, d, room);
      var t, left, ix := at, room, 0;
      ghost var written: seq<byte> := [];
      assert Overwrite(x, at, written) == x by { OverwriteAt(x, at, []); }
      assert [] + all == all;
      while ix < |p| - 1
        invariant ix <= |p| - 1 && q == p[ix..] && t == at + |written|
        invariant written + Written(q, d, left) == all && at + |written| <= len
        invariant data[..] == Overwrite(x, at, written)
      {
        assert q[0] == p[ix] && q[1..] == p[ix + 1..];
        WrittenStep(q, d, left, written);
        left := left - HDR;
        var h := Header(p[ix], left);
        OverwriteMore(x, at, written, h);
        Store(data, t, h);
        written, q := written + h, q[1..];
        t, ix := t + HDR, ix + 1;
      }
      var h := Header(p[ix], |d|) + d;
      LastWritten(q, d, left);
      OverwriteMore(x, at, written, h);
      Store(data, t, h);
      OverwriteSlices(x, at, written + h);
    }

    /** The attributes behind `end` move up by `room` bytes and the new ones are written, over the first of those bytes
        if they need more. */
    method Insert(end: nat, p: path, d: seq<byte>, room: nat)
      requires Valid() && end <= len - remain && room <= remain
      requires var n := |Written(p, d, room)|; room <= n && end + n <= (len - remain) + room
      modifies this`remain, data
      ensures Valid() && len - remain == old(len - remain) + room
      ensures var w := Written(p, d, room);
              Used() == old(Used())[..end] + w + old(Used())[end + (|w| - room)..]
    {
      hide Written, Overwrite;
      ghost var b, x, used := Used(), data[..], len - remain;
      assert b == x[..used] && data[end..used] == x[end..used];
      Move(data, end + room, end, len - remain - end);
      ghost var y := data[..];
      WriteNested(end, p, d, room);
      remain := remain - room;
      ghost var z := data[..];
      InsertDone(x, y, z, end, room, Written(p, d, room), used);
      assert Used() == z[..used + room];
    }

    /** An embedded add is correct exactly when its two passes find the same depth (see `PassesAgree`); otherwise the
        first bytes behind the container are lost. */
    method AddEmbedded(p: path, d: seq<byte>) returns (ok: bool)
      requires Valid()
      requires Within(Used(), p)
      modifies this, data
      ensures Valid() && key == old(key) && owned == old(owned) && (data == old(data) || fresh(data))
      ensures ok <==> old(HasRoom(Wanted(Used(), p, d)))
      ensures !ok ==> Used() == old(Used())
      ensures ok ==> Used() == Clobbered(old(Used()), p, d)
      ensures ok ==> (Used() == AddAt(old(Used()), p, d) <==> WideDepth(old(Used()), p) == Depth(old(Used()), p))
    {
      hide Parse, Splice, Nest, Tail, Deepest, Written, Patched, Excess, Depth, WideDepth, Clobbered, AddAt;
      EmbeddedRoom(Used(), p, d);
      var ix := FirstPass(p);
      var needed := |d| + Headers(|p| - ix);
      ok := Reserve(needed);
      if ok {
        Embed(p, d, needed);
      }
    }

    /** The second pass and the insertion, once there is room. */
    method Embed(p: path, d: seq<byte>, needed: nat)
      requires Valid() && needed == Wanted(Used(), p, d) <= remain
      requires Within(Used(), p)
      modifies this`remain, data
      ensures Valid()
      ensures Used() == Clobbered(old(Used()), p, d)
      ensures Used() == AddAt(old(Used()), p, d) <==> WideDepth(old(Used()), p) == Depth(old(Used()), p)
    {
      hide Parse, Splice, Nest, Tail, Deepest, Written, Patched, Excess, Depth, WideDepth, Clobbered, AddAt;
      ghost var b0 := Used();
      EmbeddedRoom(b0, p, d);
      ghost var ins := seq(needed, _ => 0);
      var ix, end := PatchLengths(p, needed, ins);
      ghost var u := Used();
      Insert(end, p[ix..], d, needed);
      EmbeddedDone(b0, p, d, u, end, ins, Used());
    }

    method Add(p: path, d: seq<byte>) returns (ok: bool)
      requires Valid()
      requires Within(Used(), p)
      modifies this, data
      ensures Valid() && key == old(key) && owned == old(owned) && (data == old(data) || fresh(data))
      ensures ok <==> old(HasRoom(Wanted(Used(), p, d)))
      ensures !ok ==> Used() == old(Used())
      ensures ok ==> (Used() == AddAt(old(Used()), p, d) <==> WideDepth(old(Used()), p) == Depth(old(Used()), p))
      ensures old(Exact(Used())) && (!ok || WideDepth(old(Used()), p) == Depth(old(Used()), p)) ==> Exact(Used())
    {
      hide Exact, AddAt, Clobbered, Tail, Excess, Deepest;
      ghost var b := Used();
      if |p| == 1 {
        assert p == [p[0]];
        ok := AddAttribute(p[0], d);
      } else {
        ok := AddEmbedded(p, d);
        if Used() == AddAt(b, p, d) {
          StillExact(b, p, d);
        }
      }
    }

    // ---- reading ----

    /** Walks to the attribute that the path names; its value is the `size` bytes from `at` on. */
    method Find(q: seq<nat>) returns (found: bool, at: nat, size: nat)
      requires Valid()
      ensures found <==> Lookup(Used(), q).Some?
      ensures found ==> at + size <= len - remain && Used()[at..at + size] == Lookup(Used(), q).value
    {
      hide Parse, Seek, FindNext, Lookup, Len;
      ghost var b0, rest := Used(), q;
      var t: nat, n: nat, ix := 0, len - remain, 0;
      found, at, size := false, 0, 0;
      assert b0[0..0 + n] == b0;
      while ix < |q|
        invariant ix <= |q| && rest == q[ix..] && t + n <= |b0| == len - remain && !found
        invariant Lookup(b0, q) == Lookup(b0[t..t + n], rest)
      {
        var b := data[t..t + n];
        assert b == b0[t..t + n];
        assert rest[0] == q[ix] && rest[1..] == q[ix + 1..];
        var hit := FindNext(b, q[ix]);
        LookupStep(b, rest);
        if hit == None {
          return;
        }
        at, size := t + hit.value + HDR, Len(b[hit.value..]);
        SubSlice(b0, t, n, hit.value + HDR, hit.value + HDR + size);
        if ix + 1 == |q| {
          found := true;
          return;
        }
        t, n := at, size;
        rest := rest[1..];
        ix := ix + 1;
      }
      LookupNothing(b0[t..t + n]);
    }

    // ---- deleting ----

    /** Removes the first attribute with this tag by moving up what follows it. */
    method DeleteFirst(tag: nat) returns (found: bool)
      requires Valid()
      modifies this`remain, data
      ensures Valid()
      ensures found <==> tag in Tags(Parse(old(Used())))
      ensures Parse(Used()) == if found then Cut(Parse(old(Used())), tag) else Parse(old(Used()))
      ensures !found ==> Used() == old(Used())
      ensures found ==> |Used()| < |old(Used())|
    {
      hide Parse, Drop;
      ghost var b := Used();
      var used := len - remain;
      DropAbsent(Parse(b), tag);
      var hit := FindNext(data[..used], tag);
      found := hit.Some?;
      if found {
        CutBytes(b, tag);
        Remove(hit.value, HDR + Len(data[..used][hit.value..]));
      }
    }

    method Remove(at: nat, n: nat)
      requires Valid() && at + n <= len - remain
      modifies this`remain, data
      ensures Valid() && remain == old(remain) + n
      ensures Used() == old(Used())[..at] + old(Used())[at + n..]
    {
      hide Overwrite;
      ghost var b, x, used := Used(), data[..], len - remain;
      Move(data, at, at + n, len - remain - at - n);
      remain := remain + n;
      OverwriteSlices(x, at, x[at + n..used]);
      assert x[at + n..used] == b[at + n..] && x[..at] == b[..at];
      assert Used() == data[..][..at] + data[..][at..used - n];
    }

    /** Removes every attribute with this tag. */
    method Delete(tag: nat) returns (found: bool)
      requires Valid()
      modifies this`remain, data
      ensures Valid() && (Exact(Used()) <==> old(Exact(Used())))
      ensures found <==> tag in Tags(Parse(old(Used())))
      ensures found ==> |Used()| < |old(Used())|
      ensures Parse(Used()) == Drop(Parse(old(Used())), {tag})
    {
      hide Parse;
      ghost var r := Parse(Used());
      found := DeleteFirst(tag);
      if found {
        FlatParse(old(Used()));
        CutParts(r, tag) by { DropAbsent(r, tag); }
      }
      var more := found;
      while more
        invariant Valid()
        invariant Drop(Parse(Used()), {tag}) == Drop(r, {tag})
        invariant !more ==> tag !in Tags(Parse(Used()))
        decreases len - remain, more
      {
        ghost var b := Used();
        more := DeleteFirst(tag);
        if more {
          FlatParse(b);
          CutParts(Parse(b), tag) by { DropAbsent(Parse(b), tag); }
        }
      }
      DropAbsent(Parse(Used()), tag);
      DropExact(old(Used()), Used(), {tag});
    }

    // ---- copying ----

    /** Removes the temporary attributes: after each removal the walk begins anew, and goes on before it has looked. */
    method RemoveTemporary(temp: nat -> bool)
      requires Valid()
      modifies this`remain, data
      ensures Valid() && (Exact(Used()) <==> old(Exact(Used())))
      ensures Parse(Used()) == Compact.Compacted(Parse(old(Used())), temp)
    {
      hide Parse, Drop, Complete, Compact.Resumed, Compact.Compacted;
      ghost var r := Parse(Used());
      ghost var all := Compact.Compacted(r, temp);
      Compact.Begin(r, temp);
      var it := Parse(data[..len - remain]);
      ghost var removed := false;
      while it.Attr?
        invariant Valid() && (Exact(Used()) <==> old(Exact(Used())))
        invariant if removed then Compact.Resumed(Parse(Used()), temp) == all else Parse(Used()) == r
        invariant var from := if removed then Compact.Step(Parse(Used())) else r;
                  Compact.FirstTemp(it, temp) == Compact.FirstTemp(from, temp)
        decreases |Used()|, it
      {
        if temp(it.tag) {
          ghost var cur := Parse(Used());
          Compact.Found(cur, r, removed, it.tag, temp);
          var _ := Delete(it.tag);
          removed := true;
          it := Parse(data[..len - remain]);
        }
        it := Compact.Step(it);
      }
      Compact.Begin(Parse(Used()), temp);
    }

    /** The key and the first bytes of the attribute area are overwritten. */
    method Fill(k: seq<byte>, b: seq<byte>)
      requires Valid() && |k| == KEY_LEN && |b| <= len
      modifies this, data
      ensures Valid() && key == k && Used() == b && owned == old(owned) && data == old(data) && len == old(len)
    {
      hide Overwrite;
      key := k;
      remain := len - |b|;
      OverwriteSlices(data[..], 0, b);
      Store(data, 0, b);
      assert Used() == data[..][0..|b|];
    }

    method Clone(src: Object) returns (ok: bool)
      requires Valid() && src.Valid()
      modifies this, data
      ensures Valid() && owned == old(owned) && (data == old(data) || fresh(data))
      ensures ok <==> |old(src.Used())| <= old(len) || owned
      ensures ok ==> key == old(src.key) && Used() == old(src.Used())
      ensures !ok ==> key == old(key) && Used() == old(Used())
    {
      var amt := src.len - src.remain;
      ok := true;
      ghost var was := src.Used();
      var k, b := src.key, src.data[..amt];
      if len < amt {
        ok := Realloc(src.len);
      }
      if ok {
        Fill(k, b);
      }
    }

    /** Everything after the copy of the source was made; `src` is that copy. */
    method MergeCopy(src: Object, removeDup: bool) returns (ok: bool)
      requires Valid() && src.Valid() && src != this && src.data != data
      modifies this, data, src, src.data
      ensures Valid() && key == old(key) && owned == old(owned) && (data == old(data) || fresh(data))
      ensures ok ==> Used() == Merged(old(Used()), old(src.Used()), removeDup)
      ensures ok <==> var n := |Merged(old(Used()), old(src.Used()), removeDup)|;
                      n <= old(len) || (owned && n + KEY_LEN <= MAX_ALLOC)
      ensures !ok ==> Used() == Stripped(old(Used()), old(src.Used()), removeDup)
    {
      hide Parse, Flat;
      ghost var d0, s0 := Used(), src.Used();
      if src.remain == src.len {
        assert s0 == [];
        return true;
      }
      if removeDup && remain < len {
        DropRepeated(src);
        FlatParse(Used());
        FlatParse(src.Used());
      }
      ghost var d1, s1 := Used(), src.Used();
      assert d1 == Stripped(d0, s0, removeDup);
      assert d1 + s1 == Merged(d0, s0, removeDup);
      ok := AppendBytes(src.data[..src.len - src.remain]);
    }

    method AppendBytes(b: seq<byte>) returns (ok: bool)
      requires Valid()
      modifies this, data
      ensures Valid() && key == old(key) && owned == old(owned) && (data == old(data) || fresh(data))
      ensures ok <==> |old(Used())| + |b| <= old(len) || (owned && |old(Used())| + |b| + KEY_LEN <= MAX_ALLOC)
      ensures Used() == if ok then old(Used()) + b else old(Used())
    {
      hide Overwrite;
      var cur := len - remain;
      ok := true;
      if len < cur + |b| {
        ok := Realloc(cur + |b|);
      }
      if ok {
        ghost var d, x := Used(), data[..];
        Store(data, cur, b);
        remain := remain - |b|;
        OverwriteEnd(x, cur, b);
        assert d == x[..cur] && Used() == data[..][..cur + |b|];
      }
    }

    /** Every tag of `src` is removed from this object, and its tags with a zero-length entry from `src`. */
    method DropRepeated(src: Object)
      requires Valid() && src.Valid() && src != this && src.data != data
      modifies this`remain, data, src`remain, src.data
      ensures Valid() && src.Valid()
      ensures Parse(Used()) == Drop(Parse(old(Used())), Tags(Parse(old(src.Used()))))
      ensures Parse(src.Used()) == Drop(Parse(old(src.Used())), EmptyTags(Parse(old(src.Used()))))
    {
      hide Parse;
      ghost var d0, s0 := Parse(Used()), Parse(src.Used());
      var it := Parse(src.data[..src.len - src.remain]);
      ghost var gone: set<nat> := {};
      var empty: seq<nat> := [];
      DropNone(d0);
      while it.Attr?
        invariant Valid() && src.Valid() && src.Used() == old(src.Used())
        invariant Parse(Used()) == Drop(d0, gone) && gone + Tags(it) == Tags(s0)
        invariant SetOf(empty) + EmptyTags(it) == EmptyTags(s0)
        decreases it
      {
        if it.value == [] {
          empty := empty + [it.tag];
        }
        DropDrop(d0, gone, {it.tag});
        gone := gone + {it.tag};
        var _ := Delete(it.tag);
        it := it.rest;
      }
      assert SetOf(empty) == EmptyTags(s0) && gone == Tags(s0);
      src.DeleteAll(empty);
    }

    method DeleteAll(ids: seq<nat>)
      requires Valid()
      modifies this`remain, data
      ensures Valid() && (Exact(Used()) <==> old(Exact(Used())))
      ensures Parse(Used()) == Drop(Parse(old(Used())), SetOf(ids))
    {
      hide Parse;
      ghost var r := Parse(Used());
      DropNone(r);
      assert SetOf(ids[..0]) == {};
      var ix := 0;
      while ix < |ids|
        invariant ix <= |ids| && Valid()
        invariant Parse(Used()) == Drop(r, SetOf(ids[..ix]))
      {
        DropDrop(r, SetOf(ids[..ix]), {ids[ix]});
        assert SetOf(ids[..ix + 1]) == SetOf(ids[..ix]) + {ids[ix]};
        var _ := Delete(ids[ix]);
        ix := ix + 1;
      }
      assert ids[..ix] == ids;
      DropExact(old(Used()), Used(), SetOf(ids));
    }

    method MergeFrom(src: Object, removeDup: bool) returns (ok: bool)
      requires Valid() && src.Valid() && (src == this || src.data != data)
      modifies this, data
      ensures Valid() && key == old(key) && owned == old(owned)
      ensures ok ==> Used() == Merged(old(Used()), old(src.Used()), removeDup)
      ensures ok <==> var n := |Merged(old(Used()), old(src.Used()), removeDup)|;
                      n <= old(len) || (owned && n + KEY_LEN <= MAX_ALLOC)
      ensures !ok ==> Used() == Stripped(old(Used()), old(src.Used()), removeDup)
      ensures ok && old(Exact(Used()) && Exact(src.Used())) ==> Exact(Used())
    {
      hide Exact, Merged, Stripped;
      ghost var d0, s0 := Used(), src.Used();
      if Exact(d0) && Exact(s0) {
        MergedExact(d0, s0, removeDup);
      }
      var copy := new Object.Create();
      var _ := copy.Clone(src);
      ok := MergeCopy(copy, removeDup);
    }

    // ---- transport ----

    /** Loads what `Serialised` gives.  An object that cannot be resized is left without attributes. */
    method Load(b: seq<byte>) returns (ok: bool)
      requires Valid()
      modifies this, data
      ensures Valid() && owned == old(owned)
      ensures ok <==> |b| >= KEY_LEN && owned && |b| + KEY_LEN <= MAX_ALLOC
      ensures ok ==> Serialised() == b && key == b[..KEY_LEN] && Used() == b[KEY_LEN..]
      ensures !ok ==> key == old(key) && Used() == if |b| < KEY_LEN then old(Used()) else []
    {
      if |b| < KEY_LEN {
        return false;
      }
      remain := len;
      ok := Realloc(|b|);
      if ok {
        Fill(b[..KEY_LEN], b[KEY_LEN..]);
        assert b == b[..KEY_LEN] + b[KEY_LEN..];
      }
    }

    /** Exchanges the contents of two objects. */
    method Swap(other: Object)
      requires Valid() && other.Valid()
      modifies this, other
      ensures Valid() && other.Valid()
      ensures key == old(other.key) && Used() == old(other.Used())
      ensures other.key == old(key) && other.Used() == old(Used())
    {
      key, other.key := other.key, key;
      data, other.data := other.data, data;
      len, other.len := other.len, len;
      remain, other.remain := other.remain, remain;
      owned, other.owned := other.owned, owned;
    }
  }

  /** Reads `b`, the bytes that arrived for one object, straight into a new object. */
  method Receive(b: seq<byte>) returns (o: Object?)
    ensures o != null <==> KEY_LEN <= |b| <= MAX_ALLOC - KEY_LEN
    ensures o != null ==> fresh(o) && fresh(o.data) && o.Valid() && o.Serialised() == b
  {
    if |b| == 0 {
      return null;
    }
    var p := new Object.Create();
    if p.len < |b| {
      var ok := p.Realloc(|b|);
      if !ok {
        return null;
      }
    }
    if |b| < KEY_LEN {
      return null;
    }
    p.Fill(b[..KEY_LEN], b[KEY_LEN..]);
    assert b == b[..KEY_LEN] + b[KEY_LEN..];
    return p;
  }

  function SetOf(s: seq<nat>): set<nat> {
    set t | t in s
  }

  lemma {:induction r} DropNone(r: Run)
    ensures Drop(r, {}) == r
  {
  }
}
