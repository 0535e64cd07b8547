/** Database keys: the class key and the key attributes of an object, joined by a separator, and escaped when
    they are used as a glob pattern. */
module DbKey {
  import opened Bytes

  const STAR: byte := 42
  const DASH: byte := 45
  const QUESTION: byte := 63
  const OPEN: byte := 91
  const BACKSLASH: byte := 92
  const CLOSE: byte := 93
  const CARET: byte := 94

  // ---- escaping ----

  predicate Special(c: byte) {
    c == OPEN || c == CLOSE || c == QUESTION || c == BACKSLASH || c == STAR
  }

  function EscapeOne(c: byte): seq<byte> {
    if Special(c) then [BACKSLASH, c] else [c]
  }

  function Escape(s: seq<byte>): seq<byte> {
    if s == [] then [] else EscapeOne(s[0]) + Escape(s[1..])
  }

  function Unescape(s: seq<byte>): seq<byte> {
    if s == [] then []
    else if s[0] == BACKSLASH && |s| >= 2 then [s[1]] + Unescape(s[2..])
    else [s[0]] + Unescape(s[1..])
  }

  lemma {:induction false} EscapeAppend(a: seq<byte>, b: seq<byte>)
    ensures Escape(a + b) == Escape(a) + Escape(b)
  {
    if a == [] {
      assert a + b == b;
    } else {
      EscapeAppend(a[1..], b);
      assert (a + b)[1..] == a[1..] + b;
      Grouped(EscapeOne(a[0]), Escape(a[1..]), Escape(b));
    }
  }

  lemma Grouped(a: seq<byte>, b: seq<byte>, c: seq<byte>)
    ensures a + (b + c) == a + b + c
  {
  }

  lemma {:induction false} EscapeSize(s: seq<byte>)
    ensures |s| <= |Escape(s)| <= 2 * |s|
  {
    if s != [] {
      EscapeSize(s[1..]);
    }
  }

  lemma {:induction false} UnescapeEscape(s: seq<byte>)
    ensures Unescape(Escape(s)) == s
  {
    if s != [] {
      UnescapeEscape(s[1..]);
      var e := Escape(s);
      if Special(s[0]) {
        assert e[2..] == Escape(s[1..]);
      } else {
        assert e[1..] == Escape(s[1..]);
      }
    }
  }

  lemma NothingEscaped(s: seq<byte>)
    ensures Escape(s[..0]) == []
  {
  }

  lemma EscapeNext(s: seq<byte>, i: nat)
    requires i < |s|
    ensures Escape(s[..i + 1]) == Escape(s[..i]) + EscapeOne(s[i])
  {
    assert s[..i + 1] == s[..i] + [s[i]];
    EscapeAppend(s[..i], [s[i]]);
    assert [s[i]][1..] == [];
    assert Escape([s[i]]) == EscapeOne(s[i]) + [] == EscapeOne(s[i]);
  }

  /** Appends to a list that is enlarged first for the plain bytes and again for each escape. */
  method CopyWithEscape(lst: seq<byte>, data: seq<byte>) returns (out: seq<byte>)
    ensures out == lst + Escape(data)
  {
    hide Escape;
    var offset := |lst|;
    out := lst + seq(|data|, _ => 0);
    var ix := 0;
    NothingEscaped(data);
    while ix < |data|
      invariant ix <= |data| && |out| == offset + (|data| - ix) && offset == |lst| + |Escape(data[..ix])|
      invariant out[..offset] == lst + Escape(data[..ix])
    {
      ghost var done := out[..offset];
      EscapeNext(data, ix);
      Grouped(lst, Escape(data[..ix]), EscapeOne(data[ix]));
      if Special(data[ix]) {
        out := out + [0];
        out := out[offset := BACKSLASH];
        offset := offset + 1;
      }
      out := out[offset := data[ix]];
      offset := offset + 1;
      assert out[..offset] == done + EscapeOne(data[ix]);
      ix := ix + 1;
    }
    assert data[..ix] == data;
    assert out[..offset] == out;
  }

  /** Escapes into a buffer of the caller's, which must have room for the worst case; an integer must have the
      size of its type. */
  method CreateEscaped(width: Option<nat>, buff: seq<byte>, attr: array<byte>, attrLen: nat)
    returns (ok: bool, n: nat)
    requires attrLen <= attr.Length
    modifies attr
    ensures ok <==> 2 * |buff| <= attrLen && (width.Some? ==> |buff| == width.value)
    ensures ok ==> n <= attrLen && attr[..n] == Escape(buff)
    ensures !ok ==> attr[..] == old(attr[..]) && n == attrLen
  {
    if attrLen < 2 * |buff| || (width.Some? && |buff| != width.value) {
      return false, attrLen;
    }
    hide Escape;
    var count, ix := 0, 0;
    NothingEscaped(buff);
    while ix < |buff|
      invariant ix <= |buff| && count <= 2 * ix && attr[..count] == Escape(buff[..ix])
    {
      ghost var done := attr[..count];
      EscapeNext(buff, ix);
      if Special(buff[ix]) {
        attr[count] := BACKSLASH;
        count := count + 1;
      }
      attr[count] := buff[ix];
      count := count + 1;
      assert attr[..count] == done + EscapeOne(buff[ix]);
      ix := ix + 1;
    }
    assert buff[..ix] == buff;
    return true, count;
  }

  // ---- the pattern language of the database ----

  /** The rest of a bracket expression: whether `c` is among what it lists, and the pattern behind it. */
  function Class(p: seq<byte>, c: byte, found: bool): (r: (bool, seq<byte>))
    ensures |r.1| <= |p|
    decreases |p|
  {
    if p == [] then (found, [])
    else if p[0] == BACKSLASH && |p| >= 2 then Class(p[2..], c, found || p[1] == c)
    else if p[0] == CLOSE then (found, p[1..])
    else if |p| >= 3 && p[1] == DASH then Class(p[3..], c, found || p[0] <= c <= p[2] || p[2] <= c <= p[0])
    else Class(p[1..], c, found || p[0] == c)
  }

  predicate Matches(p: seq<byte>, s: seq<byte>)
    decreases |p| + |s|
  {
    if p == [] then s == []
    else if p[0] == STAR then Matches(p[1..], s) || (s != [] && Matches(p, s[1..]))
    else if s == [] then false
    else if p[0] == QUESTION then Matches(p[1..], s[1..])
    else if p[0] == OPEN then
      var negated := |p| >= 2 && p[1] == CARET;
      var (found, rest) := Class(if negated then p[2..] else p[1..], s[0], false);
      found != negated && Matches(rest, s[1..])
    else if p[0] == BACKSLASH && |p| >= 2 then p[1] == s[0] && Matches(p[2..], s[1..])
    else p[0] == s[0] && Matches(p[1..], s[1..])
  }

  lemma {:induction false} StarMatchesAll(s: seq<byte>)
    ensures Matches([STAR], s)
  {
    assert [STAR][1..] == [];
    if s != [] {
      StarMatchesAll(s[1..]);
    }
  }

  /** An escaped byte in front of a pattern matches that byte and nothing else. */
  lemma EscapedByte(c: byte, p: seq<byte>, s: seq<byte>)
    ensures Matches(EscapeOne(c) + p, s) <==> s != [] && s[0] == c && Matches(p, s[1..])
  {
    var q := EscapeOne(c) + p;
    if Special(c) {
      assert q[2..] == p;
    } else {
      assert q[1..] == p;
    }
  }

  /** Escaped text followed by a pattern matches that text followed by what the pattern matches. */
  lemma {:induction false} EscapedPrefix(raw: seq<byte>, p: seq<byte>, s: seq<byte>)
    ensures Matches(Escape(raw) + p, s) <==> raw <= s && Matches(p, s[|raw|..])
  {
    if raw == [] {
      assert Escape(raw) + p == p && s[0..] == s;
    } else {
      assert Escape(raw) + p == EscapeOne(raw[0]) + (Escape(raw[1..]) + p);
      EscapedByte(raw[0], Escape(raw[1..]) + p, s);
      if s != [] {
        EscapedPrefix(raw[1..], p, s[1..]);
        assert raw <= s <==> raw[0] == s[0] && raw[1..] <= s[1..] by {
          assert s == [s[0]] + s[1..] && raw == [raw[0]] + raw[1..];
        }
        if |raw| <= |s| {
          assert s[1..][|raw| - 1..] == s[|raw|..];
        }
      }
    }
  }

  // ---- building keys ----

  const SEP: seq<byte> := [35, 45, 0]

  /** An object as far as its key goes: the bytes of its class key, the values of its key attributes in the
      order of the class, and whether its attributes are to be taken as patterns. */
  datatype Query = Query(classKey: seq<byte>, attrs: seq<Option<seq<byte>>>, wildcardAttrs: bool)

  function Present(attrs: seq<Option<seq<byte>>>): seq<seq<byte>> {
    if attrs == [] then []
    else (if attrs[0].Some? then [attrs[0].value] else []) + Present(attrs[1..])
  }

  /** Some key attribute is missing or is a lone star. */
  predicate Wild(q: Query) {
    exists i | 0 <= i < |q.attrs| :: q.attrs[i] == None || q.attrs[i] == Some([STAR])
  }

  function Join(vs: seq<seq<byte>>, escape: bool): seq<byte> {
    if vs == [] then [] else SEP + (if escape then Escape(vs[0]) else vs[0]) + Join(vs[1..], escape)
  }

  /** The key an instance is stored under. */
  function Raw(q: Query): seq<byte> {
    q.classKey + Join(Present(q.attrs), false)
  }

  function Pattern(q: Query): seq<byte> {
    Escape(q.classKey) + Join(Present(q.attrs), !q.wildcardAttrs) + [STAR]
  }

  lemma {:induction false} JoinAppend(a: seq<seq<byte>>, v: seq<byte>, escape: bool)
    ensures Join(a + [v], escape) == Join(a, escape) + (SEP + if escape then Escape(v) else v)
  {
    hide Escape;
    var x := if escape then Escape(v) else v;
    if a == [] {
      assert a + [v] == [v] && [v][1..] == [];
      assert [] + (SEP + x) == SEP + x + [];
    } else {
      JoinAppend(a[1..], v, escape);
      assert (a + [v])[1..] == a[1..] + [v];
      var h, j := SEP + (if escape then Escape(a[0]) else a[0]), Join(a[1..], escape);
      assert h + (j + (SEP + x)) == (h + j) + (SEP + x);
    }
  }

  lemma {:induction false} PresentAppend(a: seq<Option<seq<byte>>>, v: Option<seq<byte>>)
    ensures Present(a + [v]) == Present(a) + if v.Some? then [v.value] else []
  {
    if a == [] {
      assert a + [v] == [v];
      assert [v][1..] == [];
    } else {
      PresentAppend(a[1..], v);
      assert (a + [v])[1..] == a[1..] + [v];
    }
  }

  /** Collects the key attributes that are present. */
  method InstanceKeyAttrs(q: Query) returns (vs: seq<seq<byte>>, wildcard: bool, containsAll: bool)
    ensures vs == Present(q.attrs)
    ensures wildcard || !containsAll <==> Wild(q)
  {
    vs, wildcard := [], false;
    var ix := 0;
    assert q.attrs[..0] == [];
    while ix < |q.attrs|
      invariant ix <= |q.attrs| && vs == Present(q.attrs[..ix]) && |vs| <= ix
      invariant wildcard <==> exists i | 0 <= i < ix :: q.attrs[i] == Some([STAR])
      invariant |vs| == ix <==> forall i | 0 <= i < ix :: q.attrs[i].Some?
    {
      PresentAppend(q.attrs[..ix], q.attrs[ix]);
      assert q.attrs[..ix + 1] == q.attrs[..ix] + [q.attrs[ix]];
      if q.attrs[ix].Some? {
        vs := vs + [q.attrs[ix].value];
        wildcard := wildcard || q.attrs[ix].value == [STAR];
      }
      ix := ix + 1;
    }
    assert q.attrs[..ix] == q.attrs;
    containsAll := |vs| == |q.attrs|;
  }

  /** Builds the key or the pattern behind what is in `lst`; which of the two is guessed from the attributes or
      told by the caller. */
  method AppendAttrs(lst: seq<byte>, q: Query, believe: bool, guess: bool)
    returns (out: seq<byte>, wasWildcard: bool)
    ensures wasWildcard == Wild(q)
    ensures out == lst + if (if guess then Wild(q) else believe) then Pattern(q) else Raw(q)
  {
    hide Escape, Present, Wild;
    var vs, starred, all := InstanceKeyAttrs(q);
    wasWildcard := starred || !all;
    var wildcard := if guess then wasWildcard else believe;
    if wildcard {
      out := CopyWithEscape(lst, q.classKey);
    } else {
      out := lst + q.classKey;
    }
    var escape := wildcard && !q.wildcardAttrs;
    ghost var head, start := if wildcard then Escape(q.classKey) else q.classKey, out;
    out := AppendValues(out, vs, escape);
    ghost var tail := Join(vs, escape);
    if wildcard {
      assert (lst + head + tail) + [STAR] == lst + (head + tail + [STAR]);
      out := out + [STAR];
    } else {
      assert lst + head + tail == lst + (head + tail);
    }
  }

  method AppendValues(lst: seq<byte>, vs: seq<seq<byte>>, escape: bool) returns (out: seq<byte>)
    ensures out == lst + Join(vs, escape)
  {
    hide Escape;
    out := lst;
    var ix := 0;
    assert vs[..0] == [];
    while ix < |vs|
      invariant ix <= |vs| && out == lst + Join(vs[..ix], escape)
    {
      JoinAppend(vs[..ix], vs[ix], escape);
      assert vs[..ix + 1] == vs[..ix] + [vs[ix]];
      out := out + SEP;
      if escape {
        out := CopyWithEscape(out, vs[ix]);
      } else {
        out := out + vs[ix];
      }
      ix := ix + 1;
    }
    assert vs[..ix] == vs;
  }

  // ---- what a pattern selects ----

  lemma {:induction false} JoinEscapes(vs: seq<seq<byte>>)
    ensures Join(vs, true) == Escape(Join(vs, false))
  {
    if vs != [] {
      JoinEscapes(vs[1..]);
      EscapeAppend(SEP + vs[0], Join(vs[1..], false));
      EscapeAppend(SEP, vs[0]);
      assert Escape(SEP) == SEP by {
        assert SEP[1..] == [45, 0] && SEP[1..][1..] == [0] && SEP[1..][1..][1..] == [];
        assert Escape([0]) == [0] && Escape([45, 0]) == [45, 0];
      }
    }
  }

  /** The pattern of a query selects exactly the keys that begin with the key bytes of the query, whatever
      bytes these are; with values that are patterns, the keys of the class whose remainder they match. */
  lemma PatternSelects(q: Query, key: seq<byte>)
    ensures Matches(Pattern(q), key) <==>
            if !q.wildcardAttrs then Raw(q) <= key
            else q.classKey <= key && Matches(Join(Present(q.attrs), false) + [STAR], key[|q.classKey|..])
  {
    hide Matches, Escape, Join;
    var j := Join(Present(q.attrs), false);
    if q.wildcardAttrs {
      assert Pattern(q) == Escape(q.classKey) + (j + [STAR]);
      EscapedPrefix(q.classKey, j + [STAR], key);
    } else {
      JoinEscapes(Present(q.attrs));
      EscapeAppend(q.classKey, j);
      EscapedPrefix(Raw(q), [STAR], key);
      if Raw(q) <= key {
        StarMatchesAll(key[|Raw(q)|..]);
      }
    }
  }

  // ---- values and keys ----

  predicate SepAt(s: seq<byte>, i: int) {
    0 <= i && i + 3 <= |s| && s[i] == 35 && s[i + 1] == 45 && s[i + 2] == 0
  }

  /** No value contains the separator. */
  ghost predicate Clean(vs: seq<seq<byte>>) {
    forall j | 0 <= j < |vs| :: CleanValue(vs[j])
  }

  ghost predicate CleanValue(v: seq<byte>) {
    forall i :: !SepAt(v, i)
  }

  /** No separator begins inside a clean value: the separator does not overlap itself. */
  lemma NoSepInside(v: seq<byte>, vs: seq<seq<byte>>, i: nat)
    requires CleanValue(v) && i < |v|
    ensures !SepAt(v + Join(vs, false), i)
  {
    var s := v + Join(vs, false);
    assert !SepAt(v, i);
    if i + 3 > |v| && SepAt(s, i) {
      assert vs != [];
      assert s[|v|] == SEP[0] == 35;
    }
  }

  lemma JoinHead(v: seq<byte>, vs: seq<seq<byte>>)
    requires vs != []
    ensures SepAt(v + Join(vs, false), |v|)
  {
    var j := Join(vs, false);
    assert j[0] == 35 && j[1] == 45 && j[2] == 0;
  }

  lemma Tail3(vs: seq<seq<byte>>)
    requires vs != []
    ensures Join(vs, false)[3..] == vs[0] + Join(vs[1..], false)
  {
    assert Join(vs, false) == SEP + (vs[0] + Join(vs[1..], false));
  }

  /** A list of clean values has at least as many values as any list with the same key, and it is the only one with
      as many. */
  lemma {:induction false} JoinInjective(vs: seq<seq<byte>>, ws: seq<seq<byte>>)
    requires Clean(vs) && Join(vs, false) == Join(ws, false)
    ensures |ws| <= |vs| && (|ws| == |vs| ==> ws == vs)
    decreases |vs|
  {
    if vs != [] && ws != [] {
      hide CleanValue;
      Tail3(vs);
      Tail3(ws);
      var v, w, x, y := vs[0], ws[0], vs[1..], ws[1..];
      assert vs == [v] + x && ws == [w] + y;
      var s := v + Join(x, false);
      if y == [] {
        assert x == [] ==> v == s == w;
      } else {
        JoinHead(w, y);
        SepBehind(v, x, |w|);
        if |w| == |v| {
          assert v == s[..|v|] == w && Join(x, false) == s[|v|..] == Join(y, false);
          JoinInjective(x, y);
        } else {
          var u := RestOfValue(v, x, w, y);
          JoinInjective(x, [u] + y);
        }
      }
    }
  }

  /** A separator behind a clean value: something follows the value, and the separator does not begin inside. */
  lemma SepBehind(v: seq<byte>, x: seq<seq<byte>>, i: nat)
    requires CleanValue(v) && SepAt(v + Join(x, false), i)
    ensures i >= |v| && x != []
  {
    if i < |v| {
      NoSepInside(v, x, i);
    }
  }

  /** A value that begins with another one and goes on has a separator there. */
  lemma RestOfValue(v: seq<byte>, x: seq<seq<byte>>, w: seq<byte>, y: seq<seq<byte>>) returns (u: seq<byte>)
    requires v + Join(x, false) == w + Join(y, false) && |v| < |w| && x != [] && y != []
    ensures Join(x, false) == Join([u] + y, false)
  {
    hide Join;
    var s, a, b := v + Join(x, false), Join(x, false), Join(y, false);
    JoinHead(v, x);
    JoinHead(w, y);
    assert |w| >= |v| + 3;
    u := w[|v| + 3..];
    JoinOne(u, y);
    assert a == s[|v|..] == w[|v|..] + b;
    assert w[|v|..] == SEP + u by {
      assert s[|v|..|v| + 3] == w[|v|..|v| + 3] == SEP;
    }
  }

  lemma JoinOne(u: seq<byte>, y: seq<seq<byte>>)
    ensures Join([u] + y, false) == SEP + u + Join(y, false)
  {
    assert ([u] + y)[1..] == y;
  }

  /** All key attributes are present. */
  predicate Whole(q: Query) {
    forall i | 0 <= i < |q.attrs| :: q.attrs[i].Some?
  }

  lemma {:induction false} PresentWhole(attrs: seq<Option<seq<byte>>>)
    requires forall i | 0 <= i < |attrs| :: attrs[i].Some?
    ensures |Present(attrs)| == |attrs|
    ensures forall i | 0 <= i < |attrs| :: attrs[i] == Some(Present(attrs)[i])
  {
    if attrs != [] {
      PresentWhole(attrs[1..]);
    }
  }

  /** An instance of the same class with all key attributes. */
  ghost predicate Sibling(a: Query, b: Query) {
    b.classKey == a.classKey && |b.attrs| == |a.attrs| && Whole(b)
  }

  lemma RawJoin(a: Query, b: Query)
    requires a.classKey == b.classKey
    ensures Raw(a) == Raw(b) <==> Join(Present(a.attrs), false) == Join(Present(b.attrs), false)
  {
    hide Join;
    var n := |a.classKey|;
    assert Raw(a)[n..] == Join(Present(a.attrs), false) && Raw(b)[n..] == Join(Present(b.attrs), false);
  }

  /** An instance without the separator in its values shares its key with no other instance of its class. */
  lemma KeysInjective(a: Query, b: Query)
    requires Whole(a) && Sibling(a, b) && Clean(Present(a.attrs))
    ensures Raw(a) == Raw(b) <==> a.attrs == b.attrs
  {
    hide Raw, Clean, Join;
    RawJoin(a, b);
    PresentWhole(a.attrs);
    PresentWhole(b.attrs);
    if Raw(a) == Raw(b) {
      JoinInjective(Present(a.attrs), Present(b.attrs));
      assert a.attrs == b.attrs;
    }
  }

  /** And this is exact: an instance is the only one of its class with its key if and only if the class has at most
      one key attribute or none of its values holds the separator. */
  lemma KeysExact(a: Query)
    requires Whole(a)
    ensures (forall b | Sibling(a, b) :: Raw(a) == Raw(b) ==> a.attrs == b.attrs) <==>
            |a.attrs| <= 1 || Clean(Present(a.attrs))
  {
    hide Raw, Join;
    var vs := Present(a.attrs);
    PresentWhole(a.attrs);
    if |a.attrs| <= 1 {
      forall b | Sibling(a, b) && Raw(a) == Raw(b) ensures a.attrs == b.attrs {
        OneValue(a, b);
      }
    } else if Clean(vs) {
      forall b | Sibling(a, b) && Raw(a) == Raw(b) ensures a.attrs == b.attrs {
        KeysInjective(a, b);
      }
    } else {
      var i :| 0 <= i < |vs| && !CleanValue(vs[i]);
      var p :| SepAt(vs[i], p);
      assert 0 <= p;
      var ws := Collide(vs, i, p);
      var b := Query(a.classKey, seq(|ws|, k requires 0 <= k < |ws| => Some(ws[k])), a.wildcardAttrs);
      PresentWhole(b.attrs);
      assert Present(b.attrs) == ws;
      RawJoin(a, b);
      assert Sibling(a, b);
    }
  }

  lemma OneValue(a: Query, b: Query)
    requires Whole(a) && Sibling(a, b) && |a.attrs| <= 1 && Raw(a) == Raw(b)
    ensures a.attrs == b.attrs
  {
    PresentWhole(a.attrs);
    PresentWhole(b.attrs);
    RawJoin(a, b);
    if |a.attrs| == 1 {
      var v, w := Present(a.attrs), Present(b.attrs);
      assert v == [v[0]] + [] && w == [w[0]] + [];
      JoinOne(v[0], []);
      JoinOne(w[0], []);
      assert (SEP + v[0] + [])[3..] == v[0] && (SEP + w[0] + [])[3..] == w[0];
    }
  }

  lemma {:induction false} JoinJoin(a: seq<seq<byte>>, b: seq<seq<byte>>)
    ensures Join(a + b, false) == Join(a, false) + Join(b, false)
  {
    if a == [] {
      assert a + b == b;
    } else {
      assert (a + b)[1..] == a[1..] + b;
      JoinJoin(a[1..], b);
    }
  }

  /** The separator inside a value can be taken for the one between two values, and the other way around. */
  lemma Shift(pre: seq<seq<byte>>, x: seq<byte>, y: seq<byte>, z: seq<byte>, post: seq<seq<byte>>)
    ensures Join(pre + [x + SEP + y, z] + post, false) == Join(pre + [x, y + SEP + z] + post, false)
  {
    hide Join;
    JoinJoin(pre + [x + SEP + y, z], post);
    JoinJoin(pre + [x, y + SEP + z], post);
    JoinJoin(pre, [x + SEP + y, z]);
    JoinJoin(pre, [x, y + SEP + z]);
    PairJoin(x + SEP + y, z);
    PairJoin(x, y + SEP + z);
    Regroup(x, y, z);
  }

  lemma Regroup(x: seq<byte>, y: seq<byte>, z: seq<byte>)
    ensures SEP + (x + SEP + y) + (SEP + z) == SEP + x + (SEP + (y + SEP + z))
  {
  }

  lemma PairJoin(a: seq<byte>, b: seq<byte>)
    ensures Join([a, b], false) == SEP + a + (SEP + b)
  {
    assert [a, b] == [a] + [b] && [b] == [b] + [];
    JoinOne(a, [b]);
    JoinOne(b, []);
  }

  /** A list with a separator in a value, and another list of as many values with the same key. */
  lemma Collide(vs: seq<seq<byte>>, i: nat, p: nat) returns (ws: seq<seq<byte>>)
    requires |vs| >= 2 && i < |vs| && SepAt(vs[i], p)
    ensures |ws| == |vs| && ws != vs && Join(ws, false) == Join(vs, false)
  {
    hide Join;
    var v := vs[i];
    var x, y := v[..p], v[p + 3..];
    assert v == x + SEP + y;
    if i + 1 < |vs| {
      var pre, z, post := vs[..i], vs[i + 1], vs[i + 2..];
      assert vs == pre + [x + SEP + y, z] + post;
      ws := pre + [x, y + SEP + z] + post;
      Shift(pre, x, y, z, post);
      assert ws[i] == x && |x| < |v|;
    } else {
      var pre, z := vs[..i - 1], vs[i - 1];
      assert vs == pre + [z, x + SEP + y] + [];
      ws := pre + [z + SEP + x, y] + [];
      Shift(pre, z, x, y, []);
      assert ws[i] == y && |y| < |v|;
    }
  }

  /** A value with the separator in it can make the keys of different instances equal. */
  lemma KeysCollide(x: byte)
    ensures var a, b := [[x] + SEP + [x], [x]], [[x], [x] + SEP + [x]];
            a != b && Join(a, false) == Join(b, false)
  {
    var a, b := [[x] + SEP + [x], [x]], [[x], [x] + SEP + [x]];
    assert a[0] != b[0] by { assert |a[0]| == 5; }
    assert a[1..] == [[x]] && b[1..] == [[x] + SEP + [x]];
    assert [[x]][1..] == [] && [[x] + SEP + [x]][1..] == [];
    assert Join([[x]], false) == SEP + [x] + [];
    assert Join([[x] + SEP + [x]], false) == SEP + ([x] + SEP + [x]) + [];
  }

  /** The values of a query agree with the first values of an instance, the last one as a prefix. */
  predicate Begins(vs: seq<seq<byte>>, ws: seq<seq<byte>>) {
    vs == [] ||
    (ws != [] && if |vs| == 1 then vs[0] <= ws[0] else vs[0] == ws[0] && Begins(vs[1..], ws[1..]))
  }

  /** The value does not end in the beginning of a separator. */
  predicate NoLooseEnd(v: seq<byte>) {
    v == [] || (v[|v| - 1] != 35 && (|v| == 1 || v[|v| - 1] != 45 || v[|v| - 2] != 35))
  }

  lemma ValuePrefix(v: seq<byte>, w: seq<byte>, y: seq<seq<byte>>)
    requires CleanValue(v) && NoLooseEnd(v)
    ensures v <= w + Join(y, false) <==> v <= w
  {
    var s := w + Join(y, false);
    if v <= s && |w| < |v| {
      assert v == s[..|v|] && y != [] && !SepAt(v, |w|);
      JoinHead(w, y);
      assert false;
    }
    if v <= w {
      assert v == w[..|v|] == s[..|v|];
    }
  }

  /** Unless it is the last one, a value is followed by a separator and so has to agree completely. */
  lemma ValueWhole(v: seq<byte>, x: seq<seq<byte>>, w: seq<byte>, y: seq<seq<byte>>)
    requires CleanValue(v) && CleanValue(w) && x != []
    ensures v + Join(x, false) <= w + Join(y, false) <==> v == w && Join(x, false) <= Join(y, false)
  {
    hide Join, CleanValue;
    var a, b := Join(x, false), Join(y, false);
    if v + a <= w + b {
      JoinHead(v, x);
      assert v + a == (w + b)[..|v + a|];
      if |v| < |w| {
        NoSepInside(w, y, |v|);
        assert false;
      }
      if |w| < |v| {
        NoSepInside(v, x, |w|);
        if y != [] { JoinHead(w, y); } else { EmptyJoin(); }
        assert false;
      }
      assert v == (v + a)[..|v|] == (w + b)[..|v|] == w;
      assert a == (v + a)[|v|..] == (w + b)[..|v + a|][|v|..] == b[..|a|];
    }
    if v == w && a <= b {
      assert w + b == (v + a) + b[|a|..];
    }
  }

  lemma EmptyJoin()
    ensures Join([], false) == []
  {
  }

  lemma SamePrefix(c: seq<byte>, a: seq<byte>, b: seq<byte>)
    ensures c + a <= c + b <==> a <= b
  {
    if c + a <= c + b {
      assert a == (c + a)[|c|..] == (c + b)[..|c + a|][|c|..] == b[..|a|];
    }
    if a <= b {
      assert c + b == (c + a) + b[|a|..];
    }
  }

  /** The key of one list is the beginning of the key of another if and only if its values are, the last one as a
      prefix.  The last value must not end like a separator begins, unless there is no further separator. */
  lemma {:induction false} JoinPrefix(vs: seq<seq<byte>>, ws: seq<seq<byte>>)
    requires Clean(vs) && Clean(ws) && (vs != [] ==> NoLooseEnd(vs[|vs| - 1]) || |vs| >= |ws|)
    ensures Join(vs, false) <= Join(ws, false) <==> Begins(vs, ws)
    decreases |vs|
  {
    if vs != [] && ws != [] {
      hide CleanValue, NoLooseEnd;
      var v, w, x, y := vs[0], ws[0], vs[1..], ws[1..];
      var s, t := v + Join(x, false), w + Join(y, false);
      assert Join(vs, false) == SEP + s && Join(ws, false) == SEP + t;
      SamePrefix(SEP, s, t);
      if |vs| == 1 {
        assert s == v;
        if y == [] { assert t == w; } else { ValuePrefix(v, w, y); }
      } else {
        ValueWhole(v, x, w, y);
        JoinPrefix(x, y);
      }
    }
  }

  // ---- when a prefix of a key means a prefix of the values ----

  lemma {:induction false} BeginsClean(vs: seq<seq<byte>>, ws: seq<seq<byte>>)
    requires Begins(vs, ws) && Clean(ws)
    ensures Clean(vs)
  {
    hide CleanValue;
    if vs != [] {
      if |vs| == 1 {
        PrefixClean(vs[0], ws[0]);
      } else {
        BeginsClean(vs[1..], ws[1..]);
        assert forall j | 1 <= j < |vs| :: vs[j] == vs[1..][j - 1];
      }
    }
  }

  lemma PrefixClean(v: seq<byte>, w: seq<byte>)
    requires v <= w && CleanValue(w)
    ensures CleanValue(v)
  {
    forall i ensures !SepAt(v, i) {
      assert !SepAt(w, i);
    }
  }

  /** Any value is the key of some clean values. */
  lemma SplitValue(v: seq<byte>) returns (us: seq<seq<byte>>)
    ensures Clean(us) && us != [] && Join(us, false) == SEP + v
    decreases |v|
  {
    hide Join, CleanValue;
    if CleanValue(v) {
      us := [v];
      JoinOne(v, []);
      EmptyJoin();
      assert [v] + [] == [v];
    } else {
      var i := FindSep(v);
      var a := SplitValue(v[..i]);
      var b := SplitValue(v[i + 3..]);
      us := a + b;
      JoinJoin(a, b);
      assert v == v[..i] + SEP + v[i + 3..];
    }
  }

  lemma FindSep(v: seq<byte>) returns (i: nat)
    requires !CleanValue(v)
    ensures SepAt(v, i)
  {
    var j :| SepAt(v, j);
    i := j;
  }

  lemma {:induction false} SplitAll(vs: seq<seq<byte>>) returns (us: seq<seq<byte>>)
    ensures Clean(us) && Join(us, false) == Join(vs, false)
  {
    hide CleanValue;
    if vs == [] {
      us := [];
    } else {
      var a := SplitValue(vs[0]);
      var b := SplitAll(vs[1..]);
      us := a + b;
      JoinJoin(a, b);
    }
  }

  lemma {:induction false} BeginsBehind(pre: seq<seq<byte>>, a: seq<seq<byte>>, b: seq<seq<byte>>)
    requires a != []
    ensures Begins(pre + a, pre + b) <==> Begins(a, b)
  {
    if pre == [] {
      assert pre + a == a && pre + b == b;
    } else {
      BeginsBehind(pre[1..], a, b);
      assert (pre + a)[1..] == pre[1..] + a && (pre + b)[1..] == pre[1..] + b;
    }
  }

  /** A last value that ends like a separator begins, and a clean list whose key goes on from there. */
  lemma GoesOn(vs: seq<seq<byte>>) returns (ws: seq<seq<byte>>)
    requires Clean(vs) && vs != [] && !NoLooseEnd(vs[|vs| - 1])
    ensures |ws| == |vs| + 1 && Clean(ws) && Join(vs, false) <= Join(ws, false) && !Begins(vs, ws)
  {
    hide Join, CleanValue;
    var n := |vs| - 1;
    var pre, v := vs[..n], vs[n];
    var u := if v[|v| - 1] == 35 then v[..|v| - 1] else v[..|v| - 2];
    ws := pre + [u, []];
    PrefixClean(u, v);
    EmptyClean();
    assert vs == pre + [v];
    BeginsBehind(pre, [v], [u, []]);
    JoinJoin(pre, [v]);
    JoinJoin(pre, [u, []]);
    PairJoin(u, []);
    JoinOne(v, []);
    EmptyJoin();
    assert [v] + [] == [v];
    assert v == (u + SEP)[..|v|];
    assert SEP + v + [] <= SEP + u + (SEP + []);
    SamePrefix(Join(pre, false), SEP + v + [], SEP + u + (SEP + []));
  }

  lemma EmptyClean()
    ensures CleanValue([])
  {
  }

  /** Among clean lists, the keys that begin with the key of `vs` are those whose values begin with `vs`, if and only
      if no value of `vs` holds the separator and the last one does not end like a separator begins. */
  lemma PrefixExact(vs: seq<seq<byte>>)
    ensures (forall ws | Clean(ws) :: Join(vs, false) <= Join(ws, false) <==> Begins(vs, ws)) <==>
            Clean(vs) && (vs != [] ==> NoLooseEnd(vs[|vs| - 1]))
  {
    hide Join, Begins, NoLooseEnd, CleanValue;
    if !Clean(vs) {
      var ws := SplitAll(vs);
      if Begins(vs, ws) {
        BeginsClean(vs, ws);
      }
      assert Join(vs, false) <= Join(ws, false);
    } else if vs != [] && !NoLooseEnd(vs[|vs| - 1]) {
      var ws := GoesOn(vs);
    } else {
      forall ws | Clean(ws) ensures Join(vs, false) <= Join(ws, false) <==> Begins(vs, ws) {
        JoinPrefix(vs, ws);
      }
    }
  }

  // ---- which instances a query selects ----

  /** An instance agrees with a query on each attribute that the query gives, on the last of them as a prefix. */
  predicate Agrees(given: seq<Option<seq<byte>>>, ws: seq<seq<byte>>) {
    given == [] ||
    (ws != [] &&
     match given[0]
     case None => Agrees(given[1..], ws[1..])
     case Some(v) => if Present(given[1..]) == [] then v <= ws[0] else v == ws[0] && Agrees(given[1..], ws[1..]))
  }

  /** The attributes given are the first ones: behind a gap there is nothing, or an empty value at most. */
  predicate Leading(given: seq<Option<seq<byte>>>) {
    given == [] || if given[0].Some? then Leading(given[1..]) else Present(given) == [] || Present(given) == [[]]
  }

  lemma {:induction false} LeadingAgrees(given: seq<Option<seq<byte>>>, ws: seq<seq<byte>>)
    requires Leading(given) && |given| == |ws|
    ensures Begins(Present(given), ws) <==> Agrees(given, ws)
  {
    if given != [] {
      if given[0].Some? {
        assert Present(given)[1..] == Present(given[1..]);
        LeadingAgrees(given[1..], ws[1..]);
      } else {
        GapAgrees(given, ws);
      }
    }
  }

  lemma {:induction false} GapAgrees(given: seq<Option<seq<byte>>>, ws: seq<seq<byte>>)
    requires |given| == |ws| && (Present(given) == [] || Present(given) == [[]])
    ensures Agrees(given, ws)
  {
    if given != [] {
      if given[0].Some? {
        assert Present(given)[0] == given[0].value && Present(given)[1..] == Present(given[1..]);
      } else {
        assert Present(given) == Present(given[1..]);
        GapAgrees(given[1..], ws[1..]);
      }
    }
  }

  /** Values that agree, with an empty one for each attribute not given. */
  function Filled(given: seq<Option<seq<byte>>>): seq<seq<byte>> {
    if given == [] then [] else [if given[0].Some? then given[0].value else []] + Filled(given[1..])
  }

  lemma {:induction false} FilledAgrees(given: seq<Option<seq<byte>>>)
    requires Clean(Present(given))
    ensures |Filled(given)| == |given| && Agrees(given, Filled(given)) && Clean(Filled(given))
  {
    hide CleanValue;
    if given != [] {
      EmptyClean();
      if given[0].Some? {
        assert Present(given)[0] == given[0].value && Present(given)[1..] == Present(given[1..]);
        assert forall j | 0 <= j < |Present(given[1..])| :: Present(given[1..])[j] == Present(given)[j + 1];
      } else {
        assert Present(given) == Present(given[1..]);
      }
      FilledAgrees(given[1..]);
      assert Filled(given)[1..] == Filled(given[1..]);
    }
  }

  /** A query with a gap, and a clean instance that agrees with it and is not selected. */
  lemma {:induction false} GapFails(given: seq<Option<seq<byte>>>) returns (ws: seq<seq<byte>>)
    requires !Leading(given) && Clean(Present(given))
    ensures |ws| == |given| && Clean(ws) && Agrees(given, ws)
    ensures !(Join(Present(given), false) <= Join(ws, false))
  {
    hide CleanValue, Join;
    var vs := Present(given);
    NotLeading(given);
    if given[0].Some? {
      assert vs[0] == given[0].value && vs[1..] == Present(given[1..]);
      assert forall j | 0 <= j < |vs| - 1 :: vs[1..][j] == vs[j + 1];
      NotLeading(given[1..]);
      var t := GapFails(given[1..]);
      ws := [given[0].value] + t;
      assert ws[1..] == t;
      NotPrefix(vs, ws);
    } else {
      assert vs == Present(given[1..]);
      FilledAgrees(given[1..]);
      var v := vs[0];
      var w := if v != [] && v[0] == 0 then [1] else [0];
      ws := [w] + Filled(given[1..]);
      assert ws[1..] == Filled(given[1..]);
      ShortClean(w);
      NotPrefix(vs, ws);
    }
  }

  lemma JoinFirst(vs: seq<seq<byte>>)
    requires vs != []
    ensures Join(vs, false) == SEP + (vs[0] + Join(vs[1..], false))
  {
  }

  /** Two lists of values that differ in the first one, or in the others. */
  lemma NotPrefix(vs: seq<seq<byte>>, ws: seq<seq<byte>>)
    requires vs != [] && ws != [] && Clean(vs) && Clean(ws)
    requires if |vs| == 1 then vs[0] != [] && ws[0] != [] && vs[0][0] != ws[0][0]
             else vs[0] == ws[0] ==> !(Join(vs[1..], false) <= Join(ws[1..], false))
    ensures !(Join(vs, false) <= Join(ws, false))
  {
    hide CleanValue, Join;
    var v, w, x, y := vs[0], ws[0], vs[1..], ws[1..];
    var a, b := v + Join(x, false), w + Join(y, false);
    JoinFirst(vs);
    JoinFirst(ws);
    SamePrefix(SEP, a, b);
    if x != [] {
      ValueWhole(v, x, w, y);
    } else {
      assert a[0] != b[0];
    }
  }

  lemma NotLeading(given: seq<Option<seq<byte>>>)
    requires !Leading(given)
    ensures Present(given) != []
  {
    if given[0].Some? {
      assert Present(given)[0] == given[0].value;
    }
  }

  lemma ShortClean(w: seq<byte>)
    requires |w| <= 1
    ensures CleanValue(w)
  {
  }

  /** An instance of the class that a query is for, without separators in its values. */
  ghost predicate Instance(q: Query, o: Query) {
    Sibling(q, o) && Clean(Present(o.attrs))
  }

  lemma MatchesJoin(q: Query, o: Query)
    requires !q.wildcardAttrs && q.classKey == o.classKey
    ensures Matches(Pattern(q), Raw(o)) <==> Join(Present(q.attrs), false) <= Join(Present(o.attrs), false)
  {
    hide Pattern, Matches;
    PatternSelects(q, Raw(o));
    SamePrefix(q.classKey, Join(Present(q.attrs), false), Join(Present(o.attrs), false));
  }

  /** The separators in a key. */
  function Seps(s: seq<byte>): nat {
    if |s| < 3 then 0 else if SepAt(s, 0) then 1 + Seps(s[3..]) else Seps(s[1..])
  }

  lemma {:induction false} SepsBehind(v: seq<byte>, x: seq<seq<byte>>)
    requires CleanValue(v)
    ensures Seps(v + Join(x, false)) == Seps(Join(x, false))
  {
    var j := Join(x, false);
    if v == [] {
      assert v + j == j;
    } else {
      NoSepInside(v, x, 0);
      forall i ensures !SepAt(v[1..], i) {
        assert !SepAt(v, i + 1);
      }
      SepsBehind(v[1..], x);
      assert (v + j)[1..] == v[1..] + j;
      if |v + j| < 3 {
        assert x == [];
      }
    }
  }

  /** Clean values are as many as there are separators. */
  lemma {:induction false} CleanSeps(vs: seq<seq<byte>>)
    requires Clean(vs)
    ensures Seps(Join(vs, false)) == |vs|
  {
    if vs != [] {
      var s := vs[0] + Join(vs[1..], false);
      assert Join(vs, false) == SEP + s;
      assert (SEP + s)[3..] == s && SepAt(SEP + s, 0);
      SepsBehind(vs[0], vs[1..]);
      CleanSeps(vs[1..]);
    }
  }

  /** A key that is the beginning of another has no more values. */
  lemma {:induction false} NoMoreValues(vs: seq<seq<byte>>, ws: seq<seq<byte>>)
    requires Clean(vs) && Clean(ws) && Join(vs, false) <= Join(ws, false)
    ensures |vs| <= |ws|
    decreases |vs|
  {
    if vs != [] && ws != [] && |vs| > 1 {
      hide CleanValue;
      var v, w, x, y := vs[0], ws[0], vs[1..], ws[1..];
      var s, t := v + Join(x, false), w + Join(y, false);
      assert Join(vs, false) == SEP + s && Join(ws, false) == SEP + t;
      SamePrefix(SEP, s, t);
      ValueWhole(v, x, w, y);
      NoMoreValues(x, y);
    }
  }

  lemma {:induction false} AgreesClean(given: seq<Option<seq<byte>>>, ws: seq<seq<byte>>)
    requires Agrees(given, ws) && Clean(ws)
    ensures Clean(Present(given))
  {
    hide CleanValue;
    if given != [] {
      var rest := Present(given[1..]);
      if given[0].Some? {
        assert Present(given) == [given[0].value] + rest;
        if rest == [] {
          PrefixClean(given[0].value, ws[0]);
        } else {
          AgreesClean(given[1..], ws[1..]);
        }
      } else {
        assert Present(given) == rest;
        AgreesClean(given[1..], ws[1..]);
      }
    }
  }

  /** Empty values behind the others. */
  lemma PaddedClean(vs: seq<seq<byte>>, n: nat) returns (ws: seq<seq<byte>>)
    requires Clean(vs) && |vs| <= n
    ensures |ws| == n && Clean(ws) && Join(vs, false) <= Join(ws, false) && vs <= ws
  {
    hide CleanValue, Join;
    var pad := seq(n - |vs|, _ => []);
    ws := vs + pad;
    EmptyClean();
    JoinJoin(vs, pad);
  }

  lemma InstanceOf(q: Query, ws: seq<seq<byte>>) returns (o: Query)
    requires |ws| == |q.attrs| && Clean(ws)
    ensures Instance(q, o) && Present(o.attrs) == ws
  {
    hide Clean;
    o := Query(q.classKey, seq(|ws|, k requires 0 <= k < |ws| => Some(ws[k])), false);
    PresentWhole(o.attrs);
    assert Present(o.attrs) == ws;
  }

  /** The query selects the instance if and only if they agree. */
  ghost predicate RightOn(q: Query, o: Query) {
    Matches(Pattern(q), Raw(o)) <==> Agrees(q.attrs, Present(o.attrs))
  }

  ghost predicate RightOnAll(q: Query) {
    forall o | Instance(q, o) :: RightOn(q, o)
  }

  /** Nothing that an instance could be mistaken for: the attributes given are the first ones, and either they are all
      or the last value given does not end like a separator begins. */
  predicate Plain(q: Query) {
    var vs := Present(q.attrs);
    Leading(q.attrs) && (vs == [] || |vs| == |q.attrs| || NoLooseEnd(vs[|vs| - 1]))
  }

  lemma SelectsPlain(q: Query)
    requires !q.wildcardAttrs && Clean(Present(q.attrs)) && Plain(q)
    ensures RightOnAll(q)
  {
    hide Pattern, Matches, Raw, Clean, NoLooseEnd, Agrees, Begins, Leading, Join;
    forall o | Instance(q, o) ensures RightOn(q, o) {
      MatchesJoin(q, o);
      PresentWhole(o.attrs);
      JoinPrefix(Present(q.attrs), Present(o.attrs));
      LeadingAgrees(q.attrs, Present(o.attrs));
    }
  }

  lemma SelectsWrongly(q: Query) returns (o: Query)
    requires !q.wildcardAttrs && Clean(Present(q.attrs)) && !Plain(q)
    ensures Instance(q, o) && !RightOn(q, o)
  {
    hide Pattern, Matches, Raw, Clean, NoLooseEnd, Agrees, Begins, Leading, Join;
    var vs := Present(q.attrs);
    if !Leading(q.attrs) {
      var ws := GapFails(q.attrs);
      o := InstanceOf(q, ws);
      MatchesJoin(q, o);
    } else {
      PresentSize(q.attrs);
      var us := GoesOn(vs);
      var ws := PaddedClean(us, |q.attrs|);
      PrefixChain(Join(vs, false), Join(us, false), Join(ws, false));
      BeginsLonger(vs, us, ws);
      LeadingAgrees(q.attrs, ws);
      o := InstanceOf(q, ws);
      MatchesJoin(q, o);
    }
  }

  lemma PrefixChain(a: seq<byte>, b: seq<byte>, c: seq<byte>)
    requires a <= b && b <= c
    ensures a <= c
  {
    assert a == b[..|a|] == c[..|a|];
  }

  lemma {:induction false} BeginsLonger(vs: seq<seq<byte>>, us: seq<seq<byte>>, ws: seq<seq<byte>>)
    requires us <= ws && |vs| <= |us|
    ensures Begins(vs, us) <==> Begins(vs, ws)
  {
    if vs != [] {
      assert us[1..] <= ws[1..];
      BeginsLonger(vs[1..], us[1..], ws[1..]);
    }
  }

  lemma {:induction attrs} PresentSize(attrs: seq<Option<seq<byte>>>)
    ensures |Present(attrs)| <= |attrs|
  {
  }

  /** A value with separators in it makes a query select instances that do not agree with it, unless there are so many
      of them that no instance has as many values. */
  lemma SelectsUnclean(q: Query)
    requires !q.wildcardAttrs && !Clean(Present(q.attrs))
    ensures RightOnAll(q) <==> Seps(Join(Present(q.attrs), false)) > |q.attrs|
  {
    hide Pattern, Matches, Raw, Clean, Agrees, Join, Seps;
    var us := SplitAll(Present(q.attrs));
    CleanSeps(us);
    if |us| <= |q.attrs| {
      var ws := PaddedClean(us, |q.attrs|);
      var o := InstanceOf(q, ws);
      MatchesJoin(q, o);
      if Agrees(q.attrs, ws) {
        AgreesClean(q.attrs, ws);
      }
      assert !RightOn(q, o);
    } else {
      forall o | Instance(q, o) ensures RightOn(q, o) {
        MatchesJoin(q, o);
        PresentWhole(o.attrs);
        var ws := Present(o.attrs);
        if Join(us, false) <= Join(ws, false) {
          NoMoreValues(us, ws);
        }
        if Agrees(q.attrs, ws) {
          AgreesClean(q.attrs, ws);
        }
      }
    }
  }

  /** When a query selects, among the instances without separators in their values, exactly those that agree with it, on
      each attribute given and on the last one as a prefix. */
  lemma InstancesSelected(q: Query)
    requires !q.wildcardAttrs
    ensures RightOnAll(q) <==>
            if Clean(Present(q.attrs)) then Plain(q) else Seps(Join(Present(q.attrs), false)) > |q.attrs|
  {
    hide RightOn, Instance, Clean, Plain, Join, Seps;
    if !Clean(Present(q.attrs)) {
      SelectsUnclean(q);
    } else if Plain(q) {
      SelectsPlain(q);
    } else {
      var o := SelectsWrongly(q);
    }
  }

  // ---- instances with any values ----

  /** The query is right on every instance of its class, whatever its values. */
  ghost predicate RightOnClass(q: Query) {
    forall o | Sibling(q, o) :: RightOn(q, o)
  }

  /** A query that nothing can be mistaken for: it gives nothing, or there is one attribute only, or one empty value, or
      a value for the first attribute in which no separator begins. */
  ghost predicate Unmistakable(q: Query) {
    var vs := Present(q.attrs);
    || vs == [] || |q.attrs| == 1 || vs == [[]]
    || (|vs| == 1 && q.attrs[0].Some? && CleanValue(vs[0]) && NoLooseEnd(vs[0]))
  }

  lemma SiblingOf(q: Query, ws: seq<seq<byte>>) returns (o: Query)
    requires |ws| == |q.attrs|
    ensures Sibling(q, o) && Present(o.attrs) == ws
  {
    o := Query(q.classKey, seq(|ws|, k requires 0 <= k < |ws| => Some(ws[k])), false);
    PresentWhole(o.attrs);
    assert Present(o.attrs) == ws;
  }

  /** One value, for the first attribute. */
  lemma OneGiven(given: seq<Option<seq<byte>>>, ws: seq<seq<byte>>)
    requires |given| == |ws| >= 1 && |Present(given)| == 1 && given[0].Some?
    ensures Present(given) == [given[0].value]
    ensures Agrees(given, ws) <==> given[0].value <= ws[0]
  {
    hide Agrees;
    assert Present(given) == [given[0].value] + Present(given[1..]);
    AgreesOne(given, ws);
  }

  lemma AgreesOne(given: seq<Option<seq<byte>>>, ws: seq<seq<byte>>)
    requires given != [] && ws != [] && given[0].Some? && Present(given[1..]) == []
    ensures Agrees(given, ws) <==> given[0].value <= ws[0]
  {
  }

  lemma SelectsUnmistakably(q: Query, o: Query)
    requires !q.wildcardAttrs && Unmistakable(q) && Sibling(q, o)
    ensures RightOn(q, o)
  {
    hide Matches, Pattern, Raw, Agrees, CleanValue, NoLooseEnd, Join, Present;
    MatchesJoin(q, o);
    PresentWhole(o.attrs);
    var vs, ws := Present(q.attrs), Present(o.attrs);
    if vs == [] || vs == [[]] {
      GapAgrees(q.attrs, ws);
      LittleJoined(vs, ws);
      if vs == [[]] {
        SomethingGiven(q.attrs);
      }
    } else {
      if |q.attrs| == 1 {
        OnlyGiven(q.attrs);
      } else {
        SomethingGiven(q.attrs);
      }
      OneGiven(q.attrs, ws);
      JoinFirst(vs);
      JoinFirst(ws);
      EmptyJoin();
      assert vs[1..] == [] && vs[0] + [] == vs[0];
      SamePrefix(SEP, vs[0], ws[0] + Join(ws[1..], false));
      if |q.attrs| == 1 {
        assert ws[1..] == [] && ws[0] + [] == ws[0];
      } else {
        ValuePrefix(vs[0], ws[0], ws[1..]);
      }
    }
  }

  /** The key of nothing, or of an empty value, begins every key. */
  lemma LittleJoined(vs: seq<seq<byte>>, ws: seq<seq<byte>>)
    requires vs == [] || (vs == [[]] && ws != [])
    ensures Join(vs, false) <= Join(ws, false)
  {
    if vs == [[]] {
      JoinFirst(ws);
      JoinFirst(vs);
      assert vs[1..] == [];
      assert Join(vs, false) == SEP + ([] + []) == SEP;
    }
  }

  lemma SomethingGiven(given: seq<Option<seq<byte>>>)
    requires Present(given) != []
    ensures given != []
  {
  }

  lemma OnlyGiven(given: seq<Option<seq<byte>>>)
    requires |given| == 1 && Present(given) != []
    ensures given[0].Some? && |Present(given)| == 1
  {
    assert given[1..] == [];
  }

  /** All values are `f`, which is not what the first value given asks for. */
  lemma {:induction false} DisagreesAt(given: seq<Option<seq<byte>>>, ws: seq<seq<byte>>, f: seq<byte>)
    requires |given| == |ws| && Present(given) != [] && (forall i | 0 <= i < |ws| :: ws[i] == f)
    requires if |Present(given)| == 1 then f == [] && Present(given)[0] != [] else Present(given)[0] != f
    ensures !Agrees(given, ws)
  {
    if given[0].Some? {
      assert Present(given)[0] == given[0].value && Present(given)[1..] == Present(given[1..]);
    } else {
      assert Present(given) == Present(given[1..]);
      DisagreesAt(given[1..], ws[1..], f);
    }
  }

  /** A list whose first value is all the key of `vs` but its first separator. */
  lemma RunsOn(vs: seq<seq<byte>>, f: seq<byte>, n: nat) returns (ws: seq<seq<byte>>)
    requires vs != [] && n >= 1
    ensures |ws| == n && Join(vs, false) <= Join(ws, false)
    ensures ws[0] == vs[0] + Join(vs[1..], false) && forall i | 1 <= i < n :: ws[i] == f
  {
    hide Join;
    var j := vs[0] + Join(vs[1..], false);
    var rest := seq(n - 1, _ => f);
    ws := [j] + rest;
    JoinFirst(vs);
    JoinFirst(ws);
    assert ws[1..] == rest;
    SamePrefix(SEP, j, j + Join(rest, false));
  }

  /** A query that gives two values or more, or one behind a gap, selects an instance that does not agree with it: one
      whose first value holds the separators between the values given. */
  lemma SelectsMore(q: Query) returns (o: Query)
    requires !q.wildcardAttrs && |q.attrs| >= 2
    requires var vs := Present(q.attrs); vs != [] && (|vs| >= 2 || (q.attrs[0].None? && vs != [[]]))
    ensures Sibling(q, o) && Matches(Pattern(q), Raw(o)) && !Agrees(q.attrs, Present(o.attrs))
  {
    hide Matches, Pattern, Raw, Agrees, Join, Present;
    var vs := Present(q.attrs);
    var f := if |vs| >= 2 && vs[0] == [] then [0] else [];
    var ws := RunsOn(vs, f, |q.attrs|);
    o := SiblingOf(q, ws);
    MatchesJoin(q, o);
    MoreDisagrees(q.attrs, ws, f);
  }

  lemma MoreDisagrees(given: seq<Option<seq<byte>>>, ws: seq<seq<byte>>, f: seq<byte>)
    requires |given| == |ws| >= 2 && Present(given) != [] && (forall i | 1 <= i < |ws| :: ws[i] == f)
    requires var vs := Present(given);
             && (|vs| >= 2 || (given[0].None? && vs != [[]]))
             && ws[0] == vs[0] + Join(vs[1..], false)
             && f == if |vs| >= 2 && vs[0] == [] then [0] else []
    ensures !Agrees(given, ws)
  {
    var vs := Present(given);
    if given[0].Some? {
      assert vs[0] == given[0].value && vs[1..] == Present(given[1..]);
      JoinFirst(vs[1..]);
      assert |ws[0]| > |vs[0]|;
    } else {
      assert vs == Present(given[1..]);
      assert forall i | 0 <= i < |ws[1..]| :: ws[1..][i] == f;
      DisagreesAt(given[1..], ws[1..], f);
    }
  }

  /** One value for the first attribute in which a separator begins, and an instance that is cut there. */
  lemma SelectsCut(q: Query) returns (o: Query)
    requires !q.wildcardAttrs && |q.attrs| >= 2 && |Present(q.attrs)| == 1 && q.attrs[0].Some?
    requires !CleanValue(Present(q.attrs)[0]) || !NoLooseEnd(Present(q.attrs)[0])
    ensures Sibling(q, o) && Matches(Pattern(q), Raw(o)) && !Agrees(q.attrs, Present(o.attrs))
  {
    hide Matches, Pattern, Raw, Agrees, Join, Present;
    var v := Present(q.attrs)[0];
    var x, y := CutAtSep(v);
    var pad: seq<seq<byte>> := seq(|q.attrs| - 2, _ => []);
    var ws := [x, y] + pad;
    o := SiblingOf(q, ws);
    MatchesJoin(q, o);
    OneGiven(q.attrs, ws);
    JoinFirst(Present(q.attrs));
    EmptyJoin();
    assert Present(q.attrs)[1..] == [] && v + [] == v;
    JoinJoin([x, y], pad);
    PairJoin(x, y);
    var a := SEP + x + (SEP + y);
    assert a == SEP + (x + SEP + y);
    SamePrefix(SEP, v, x + SEP + y);
    PrefixChain(SEP + v, a, a + Join(pad, false));
  }

  lemma CutAtSep(v: seq<byte>) returns (x: seq<byte>, y: seq<byte>)
    requires !CleanValue(v) || !NoLooseEnd(v)
    ensures |x| < |v| && v <= x + SEP + y
  {
    if !CleanValue(v) {
      var i := FindSep(v);
      x, y := v[..i], v[i + 3..];
      assert v == x + SEP + y;
    } else {
      x, y := if v[|v| - 1] == 35 then v[..|v| - 1] else v[..|v| - 2], [];
      assert v == (x + SEP)[..|v|];
      assert x + SEP + y == x + SEP;
    }
  }

  /** When a query selects exactly the instances of its class that agree with it, whatever bytes the values of these
      hold.  So a query that gives two values or more never does, unless there is one attribute only. */
  lemma ClassSelected(q: Query)
    requires !q.wildcardAttrs
    ensures RightOnClass(q) <==> Unmistakable(q)
  {
    hide Matches, Pattern, Raw, Agrees, CleanValue, NoLooseEnd, Join, Present;
    var vs := Present(q.attrs);
    if Unmistakable(q) {
      forall o | Sibling(q, o) ensures RightOn(q, o) {
        SelectsUnmistakably(q, o);
      }
    } else {
      SomethingGiven(q.attrs);
      if |vs| >= 2 || q.attrs[0].None? {
        var o := SelectsMore(q);
        assert !RightOn(q, o);
      } else {
        var o := SelectsCut(q);
        assert !RightOn(q, o);
      }
    }
  }

  // ---- failing cases ----

  /** Two values given, and an instance whose first value holds both of them. */
  lemma HeldTogether(c: seq<byte>, x: byte, y: byte, z: seq<byte>)
    ensures var q, o := Query(c, [Some([x]), Some([y])], false), Query(c, [Some([x] + SEP + [y]), Some(z)], false);
            Sibling(q, o) && Matches(Pattern(q), Raw(o)) && !Agrees(q.attrs, Present(o.attrs))
  {
    hide Matches, Pattern, Raw, Join;
    var q, o := Query(c, [Some([x]), Some([y])], false), Query(c, [Some([x] + SEP + [y]), Some(z)], false);
    TwoPresent(q.attrs, [x], [y]);
    TwoPresent(o.attrs, [x] + SEP + [y], z);
    MatchesJoin(q, o);
    PairJoin([x], [y]);
    PairJoin([x] + SEP + [y], z);
    var a := SEP + ([x] + SEP + [y]);
    assert SEP + [x] + (SEP + [y]) == a <= a + (SEP + z);
    assert |[x] + SEP + [y]| == 5;
  }

  lemma TwoPresent(attrs: seq<Option<seq<byte>>>, v: seq<byte>, w: seq<byte>)
    requires attrs == [Some(v), Some(w)]
    ensures Present(attrs) == [v, w] && Present(attrs[1..]) == [w]
  {
    OnePresent(attrs[1..], w);
    assert Present(attrs) == [v] + Present(attrs[1..]);
  }

  lemma OnePresent(attrs: seq<Option<seq<byte>>>, w: seq<byte>)
    requires attrs == [Some(w)]
    ensures Present(attrs) == [w] && Present(attrs[1..]) == []
  {
    assert attrs[1..] == [];
  }

  /** A query for the second attribute selects by the first. */
  lemma GapSelects(c: seq<byte>, x: byte, y: byte)
    requires x != y
    ensures var q, o := Query(c, [None, Some([x])], false), Query(c, [Some([x]), Some([y])], false);
            Instance(q, o) && Matches(Pattern(q), Raw(o)) && !Agrees(q.attrs, Present(o.attrs))
  {
    hide Matches, Pattern, Raw, Join, Agrees, CleanValue;
    var q, o := Query(c, [None, Some([x])], false), Query(c, [Some([x]), Some([y])], false);
    TwoPresent(o.attrs, [x], [y]);
    OnePresent(q.attrs[1..], [x]);
    assert Present(q.attrs) == Present(q.attrs[1..]);
    ShortClean([x]);
    ShortClean([y]);
    MatchesJoin(q, o);
    JoinFirst([[x]]);
    JoinFirst([[x], [y]]);
    EmptyJoin();
    assert [[x]][1..] == [] && [[x], [y]][1..] == [[y]] && [x] + [] == [x];
    SamePrefix(SEP, [x], [x] + Join([[y]], false));
    assert [x][0] != [y][0];
    GapDisagrees(q.attrs, [x], [x], [y]);
  }

  lemma GapDisagrees(given: seq<Option<seq<byte>>>, v: seq<byte>, a: seq<byte>, b: seq<byte>)
    requires given == [None, Some(v)] && !(v <= b)
    ensures !Agrees(given, [a, b])
  {
    OnePresent(given[1..], v);
    assert [a, b][1..] == [b];
    AgreesOne(given[1..], [b]);
  }

  /** A value that is a lone star is noticed as a wildcard, but it is escaped like any other: it selects the values that
      begin with a star. */
  lemma StarEscaped(c: seq<byte>, w: seq<byte>)
    ensures var q, o := Query(c, [Some([STAR])], false), Query(c, [Some(w)], false);
            Wild(q) && (Matches(Pattern(q), Raw(o)) <==> w != [] && w[0] == STAR)
  {
    hide Matches, Pattern, Raw, Join;
    var q, o := Query(c, [Some([STAR])], false), Query(c, [Some(w)], false);
    assert q.attrs[0] == Some([STAR]);
    OnePresent(q.attrs, [STAR]);
    OnePresent(o.attrs, w);
    MatchesJoin(q, o);
    JoinFirst([[STAR]]);
    JoinFirst([w]);
    EmptyJoin();
    assert [[STAR]][1..] == [] && [w][1..] == [] && [STAR] + [] == [STAR] && w + [] == w;
    SamePrefix(SEP, [STAR], w);
  }

  /** A value that ends like a separator begins selects instances with another value. */
  lemma LooseEnd(x: byte, y: seq<byte>)
    ensures Join([[x, 35]], false) <= Join([[x], y], false) && !Begins([[x, 35]], [[x], y])
  {
    var a, b := Join([[x, 35]], false), Join([[x], y], false);
    assert [[x], y][1..] == [y] && [y][1..] == [] && [[x, 35]][1..] == [];
    assert Join([], false) == [] && Join([y], false) == SEP + y + [];
    assert a == SEP + [x, 35] + [] == [35, 45, 0, x, 35];
    assert b == SEP + [x] + (SEP + y + []);
    assert b[..5] == [35, 45, 0, x, 35];
  }
}
