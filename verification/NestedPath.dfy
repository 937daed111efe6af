/**
 * bin/configure-platform.py, get_path and set_path: dotted paths into nested
 * dictionaries, which set_path updates in place. A path is the list of parts
 * that splitting at the dots gives, so it has at least one part.
 */
module NestedPath {
  import opened Options

  class Dict {
    var entries: map<string, Value>

    constructor ()
      ensures entries == map[]
    {
      entries := map[];
    }
  }

  /** Scalar stands for every value that is not a dictionary. */
  datatype Value = Scalar(n: int) | Nested(dict: Dict)

  type Path = seq<string>

  /** The contents of some dictionaries at one moment. */
  type Heap = map<Dict, map<string, Value>>

  ghost function Snapshot(objs: set<Dict>): Heap
    reads objs
  {
    map d | d in objs :: d.entries
  }

  predicate Known(h: Heap, v: Value) { v.Nested? ==> v.dict in h }

  ghost predicate Closed(h: Heap) { forall d, k :: d in h && k in h[d] ==> Known(h, h[d][k]) }

  /** What a path leads to. */
  ghost function At(h: Heap, v: Value, path: Path): (r: Option<Value>)
    requires Closed(h) && Known(h, v)
    ensures r.Some? ==> Known(h, r.value)
    decreases |path|
  {
    if path == [] then Some(v)
    else if v.Scalar? || path[0] !in h[v.dict] then None
    else At(h, h[v.dict][path[0]], path[1..])
  }

  /** Key k of d holds a dictionary. */
  ghost predicate Holds(h: Heap, d: Dict, k: string) { d in h && k in h[d] && h[d][k].Nested? }

  /** No aliasing: nothing holds the root, and no dictionary is held twice. */
  ghost predicate Tree(h: Heap, root: Dict) {
    && Closed(h) && root in h
    && (forall d, k :: d in h && Holds(h, d, k) ==> h[d][k].dict != root)
    && (forall d, k, e, m ::
          d in h && e in h && Holds(h, d, k) && Holds(h, e, m) && h[d][k].dict == h[e][m].dict ==> d == e && k == m)
  }

  /** A new empty dictionary n under key k of d. */
  ghost function Grow(h: Heap, d: Dict, k: string, n: Dict): Heap
    requires d in h
  {
    h[d := h[d][k := Nested(n)]][n := map[]]
  }

  /** Step by step, what set_path does to the dictionaries. */
  ghost predicate IsSet(h: Heap, h': Heap, d: Dict, parts: Path, v: Value)
    requires parts != []
    decreases |parts|
  {
    d in h &&
    if |parts| == 1 then h' == h[d := h[d][parts[0] := v]]
    else if parts[0] in h[d] && h[d][parts[0]].Nested? then IsSet(h, h', h[d][parts[0]].dict, parts[1..], v)
    else exists n :: n in h' && n !in h && IsSet(Grow(h, d, parts[0], n), h', n, parts[1..], v)
  }

  lemma GrowClosed(h: Heap, d: Dict, k: string, n: Dict)
    requires Closed(h) && d in h && n !in h
    ensures Closed(Grow(h, d, k, n))
  {
    var g := Grow(h, d, k, n);
    forall e, m | e in g && m in g[e] ensures Known(g, g[e][m]) {
      if e in h && m in h[e] {
        assert Known(h, h[e][m]);
      }
    }
  }

  method GetPath(data: Dict, parts: Path, ghost objs: set<Dict>) returns (r: Option<Value>)
    requires data in objs && Closed(Snapshot(objs))
    ensures r == At(Snapshot(objs), Nested(data), parts)
  {
    var cur := Nested(data);
    for i := 0 to |parts|
      invariant Known(Snapshot(objs), cur)
      invariant At(Snapshot(objs), cur, parts[i..]) == At(Snapshot(objs), Nested(data), parts)
    {
      assert parts[i..][1..] == parts[i + 1..];
      if cur.Scalar? || parts[i] !in cur.dict.entries {
        return None;
      }
      cur := cur.dict.entries[parts[i]];
    }
    assert parts[|parts|..] == [];
    return Some(cur);
  }

  /** One step down: into the dictionary under k, or into a new one that replaces whatever is there. */
  ghost predicate Entered(h: Heap, g: Heap, d: Dict, k: string, e: Dict) {
    && d in h
    && if k in h[d] && h[d][k].Nested? then g == h && h[d][k] == Nested(e) else e !in h && g == Grow(h, d, k, e)
  }

  lemma {:induction false} SetKeepsKeys(h: Heap, h': Heap, d: Dict, parts: Path, v: Value)
    requires parts != [] && IsSet(h, h', d, parts, v)
    ensures h.Keys <= h'.Keys && d in h
    decreases |parts|
  {
    if |parts| == 1 {
      assert h' == h[d := h[d][parts[0] := v]];
    } else if parts[0] in h[d] && h[d][parts[0]].Nested? {
      SetKeepsKeys(h, h', h[d][parts[0]].dict, parts[1..], v);
    } else {
      var n :| n in h' && n !in h && IsSet(Grow(h, d, parts[0], n), h', n, parts[1..], v);
      SetKeepsKeys(Grow(h, d, parts[0], n), h', n, parts[1..], v);
      assert h.Keys <= Grow(h, d, parts[0], n).Keys;
    }
  }

  /** A step and the rest of the path are the path. */
  lemma EnteredThenSet(h: Heap, g: Heap, h': Heap, d: Dict, e: Dict, parts: Path, v: Value)
    requires |parts| > 1 && Entered(h, g, d, parts[0], e) && IsSet(g, h', e, parts[1..], v)
    ensures IsSet(h, h', d, parts, v)
  {
    SetKeepsKeys(g, h', e, parts[1..], v);
  }

  /** The dictionaries, and the one set_path stands at. */
  datatype State = State(heap: Heap, cur: Dict)

  ghost predicate Steps(trail: seq<State>, path: Path, j: nat)
    requires j < |path| && |trail| == |path| + 1
  {
    Entered(trail[j].heap, trail[j + 1].heap, trail[j].cur, path[j], trail[j + 1].cur)
  }

  ghost predicate Trail(trail: seq<State>, path: Path) {
    |trail| == |path| + 1 && forall j :: 0 <= j < |path| ==> Steps(trail, path, j)
  }

  lemma TrailNext(trail: seq<State>, path: Path, k: string, next: State)
    requires Trail(trail, path) && Entered(trail[|path|].heap, next.heap, trail[|path|].cur, k, next.cur)
    ensures Trail(trail + [next], path + [k])
  {
    hide Entered;
    forall j | 0 <= j < |path + [k]| ensures Steps(trail + [next], path + [k], j) {
      if j < |path| {
        assert Steps(trail, path, j);
      }
    }
  }

  /** The steps of the trail and the last assignment are set_path. */
  lemma {:induction false} TrailIsSet(trail: seq<State>, path: Path, last: string, v: Value, h': Heap)
    requires Trail(trail, path)
    requires var s := trail[|path|]; s.cur in s.heap && h' == s.heap[s.cur := s.heap[s.cur][last := v]]
    ensures IsSet(trail[0].heap, h', trail[0].cur, path + [last], v)
    decreases |path|
  {
    if path == [] {
      assert path + [last] == [last];
    } else {
      hide Entered;
      assert Steps(trail, path, 0);
      forall j | 0 <= j < |path| - 1 ensures Steps(trail[1..], path[1..], j) {
        assert Steps(trail, path, j + 1);
      }
      TrailIsSet(trail[1..], path[1..], last, v, h');
      assert (path + [last])[1..] == path[1..] + [last];
      EnteredThenSet(trail[0].heap, trail[1].heap, h', trail[0].cur, trail[1].cur, path + [last], v);
    }
  }

  /** The body of the loop in set_path. */
  method Enter(cur: Dict, part: string, ghost objs: set<Dict>) returns (nxt: Dict, ghost all: set<Dict>)
    requires cur in objs && Closed(Snapshot(objs))
    modifies cur
    ensures objs <= all && fresh(all - objs) && nxt in all && Closed(Snapshot(all))
    ensures Entered(old(Snapshot(objs)), Snapshot(all), cur, part, nxt)
  {
    ghost var now := Snapshot(objs);
    if part in cur.entries && cur.entries[part].Nested? {
      assert Known(now, now[cur][part]);
      nxt, all := cur.entries[part].dict, objs;
    } else {
      nxt := new Dict();
      cur.entries := cur.entries[part := Nested(nxt)];
      all := objs + {nxt};
      assert Snapshot(all) == Grow(now, cur, part, nxt);
      GrowClosed(now, cur, part, nxt);
    }
  }

  method SetPath(data: Dict, parts: Path, value: Value, ghost objs: set<Dict>) returns (ghost all: set<Dict>)
    requires parts != [] && data in objs && Closed(Snapshot(objs)) && Known(Snapshot(objs), value)
    modifies objs
    ensures objs <= all && fresh(all - objs)
    ensures IsSet(old(Snapshot(objs)), Snapshot(all), data, parts, value)
  {
    hide Closed, Known, Entered;
    var cur := data;
    all := objs;
    ghost var trail := [State(Snapshot(objs), data)];
    for i := 0 to |parts| - 1
      invariant objs <= all && fresh(all - objs) && cur in all && Closed(Snapshot(all))
      invariant Trail(trail, parts[..i]) && trail[i] == State(Snapshot(all), cur)
      invariant trail[0] == old(State(Snapshot(objs), data))
    {
      cur, all := Enter(cur, parts[i], all);
      ghost var next := State(Snapshot(all), cur);
      TrailNext(trail, parts[..i], parts[i], next);
      assert parts[..i + 1] == parts[..i] + [parts[i]];
      trail := trail + [next];
    }
    var last := parts[|parts| - 1];
    ghost var now := Snapshot(all);
    assert parts == parts[..|parts| - 1] + [last];
    cur.entries := cur.entries[last := value];
    assert Snapshot(all) == now[cur := now[cur][last := value]];
    TrailIsSet(trail, parts[..|parts| - 1], last, value, Snapshot(all));
  }

  // -------------------------------------------------------------- paths

  lemma {:induction false} AtSplit(h: Heap, v: Value, a: Path, b: Path)
    requires Closed(h) && Known(h, v)
    ensures At(h, v, a + b) == if At(h, v, a).Some? then At(h, At(h, v, a).value, b) else None
    decreases |a|
  {
    if a == [] {
      assert a + b == b;
    } else if v.Nested? && a[0] in h[v.dict] {
      AtSplit(h, h[v.dict][a[0]], a[1..], b);
      assert (a + b)[1..] == a[1..] + b;
    }
  }

  /** The last step of a path. */
  lemma AtLast(h: Heap, v: Value, path: Path)
    requires Closed(h) && Known(h, v) && path != []
    ensures var p := At(h, v, path[..|path| - 1]);
            At(h, v, path)
              == if p.Some? && p.value.Nested? && path[|path| - 1] in h[p.value.dict]
                 then Some(h[p.value.dict][path[|path| - 1]]) else None
  {
    var n := |path| - 1;
    AtSplit(h, v, path[..n], [path[n]]);
    assert path == path[..n] + [path[n]];
    if At(h, v, path[..n]).Some? {
      AtOne(h, At(h, v, path[..n]).value, path[n]);
    }
  }

  lemma AtOne(h: Heap, v: Value, k: string)
    requires Closed(h) && Known(h, v)
    ensures At(h, v, [k]) == if v.Nested? && k in h[v.dict] then Some(h[v.dict][k]) else None
  {
    assert [k][1..] == [];
  }

  lemma AtNothing(h: Heap, v: Value)
    requires Closed(h) && Known(h, v)
    ensures At(h, v, []) == Some(v)
  {
  }

  lemma TreeFacts(h: Heap, root: Dict)
    requires Tree(h, root)
    ensures Closed(h) && Known(h, Nested(root)) && root in h
  {
  }

  /** A dictionary reached by a path has a holder at the end of the path. */
  lemma HolderOf(h: Heap, root: Dict, path: Path) returns (p: Dict)
    requires Tree(h, root) && path != [] && Closed(h) && Known(h, Nested(root))
    requires At(h, Nested(root), path).Some? && At(h, Nested(root), path).value.Nested?
    ensures At(h, Nested(root), path[..|path| - 1]) == Some(Nested(p)) && Holds(h, p, path[|path| - 1])
    ensures At(h, Nested(root), path) == Some(h[p][path[|path| - 1]])
    ensures At(h, Nested(root), path).value.dict != root
  {
    AtLast(h, Nested(root), path);
    hide At;
    p := At(h, Nested(root), path[..|path| - 1]).value.dict;
    assert Holds(h, p, path[|path| - 1]);
  }

  lemma OneHolder(h: Heap, root: Dict, d: Dict, k: string, e: Dict, m: string)
    requires Tree(h, root) && Holds(h, d, k) && Holds(h, e, m) && h[d][k] == h[e][m]
    ensures d == e && k == m
  {
  }

  /** In a tree only one path leads to a dictionary. */
  lemma {:induction false} OnePath(h: Heap, root: Dict, a: Path, b: Path, d: Dict)
    requires Tree(h, root) && Closed(h) && Known(h, Nested(root))
    requires At(h, Nested(root), a) == At(h, Nested(root), b) == Some(Nested(d))
    ensures a == b
    decreases |a|
  {
    hide *;
    AtNothing(h, Nested(root));
    if a != [] {
      var p := HolderOf(h, root, a);
      if b != [] {
        var q := HolderOf(h, root, b);
        OneHolder(h, root, p, a[|a| - 1], q, b[|b| - 1]);
        OnePath(h, root, a[..|a| - 1], b[..|b| - 1], p);
        assert a == a[..|a| - 1] + [a[|a| - 1]] && b == b[..|b| - 1] + [b[|b| - 1]];
      }
    } else if b != [] {
      var q := HolderOf(h, root, b);
    }
  }

  predicate Extends(q: Path, p: Path) { |p| <= |q| && q[..|p|] == p }

  /** One entry is set: g is h but for key k of d, and for new dictionaries. */
  ghost predicate OneEntry(h: Heap, g: Heap, d: Dict, k: string) {
    && d in h && h.Keys <= g.Keys && Closed(g) && k in g[d]
    && (forall e :: e in h && e != d ==> g[e] == h[e])
    && g[d] == h[d][k := g[d][k]]
  }

  lemma OneEntryRead(h: Heap, g: Heap, d: Dict, k: string, e: Dict, m: string)
    requires OneEntry(h, g, d, k) && e in h && (e != d || m != k)
    ensures e in g && (m in g[e] <==> m in h[e]) && (m in h[e] ==> g[e][m] == h[e][m])
  {
  }

  lemma ExtendsFront(q: Path, p: Path)
    requires q != [] && !Extends(q, p)
    ensures !Extends(q[..|q| - 1], p)
  {
    if |p| < |q| {
      assert q[..|q| - 1][..|p|] == q[..|p|];
    }
  }

  lemma ExtendsItself(q: Path)
    ensures Extends(q, q)
  {
  }

  /** A path that does not run through the entry that was set reads as before. */
  lemma {:induction false} OtherPath(h: Heap, g: Heap, root: Dict, pre: Path, d: Dict, k: string, q: Path)
    requires Tree(h, root) && Closed(h) && Known(h, Nested(root)) && Closed(g) && Known(g, Nested(root))
    requires At(h, Nested(root), pre) == Some(Nested(d)) && OneEntry(h, g, d, k) && !Extends(q, pre + [k])
    ensures At(g, Nested(root), q) == At(h, Nested(root), q)
    decreases |q|
  {
    hide *;
    AtNothing(h, Nested(root));
    AtNothing(g, Nested(root));
    if q != [] {
      var front, last := q[..|q| - 1], q[|q| - 1];
      ExtendsFront(q, pre + [k]);
      OtherPath(h, g, root, pre, d, k, front);
      AtLast(h, Nested(root), q);
      AtLast(g, Nested(root), q);
      var p := At(h, Nested(root), front);
      if p.Some? && p.value.Nested? {
        if p.value.dict == d && last == k {
          OnePath(h, root, front, pre, d);
          assert q == pre + [k];
          ExtendsItself(q);
        }
        KnownDict(h, p.value);
        OneEntryRead(h, g, d, k, p.value.dict, last);
      }
    }
  }

  lemma KnownDict(h: Heap, v: Value)
    requires Known(h, v) && v.Nested?
    ensures v.dict in h
  {
  }

  // ------------------------------------------------------- get after set

  function SetEntry(h: Heap, d: Dict, k: string, v: Value): Heap
    requires d in h
  {
    h[d := h[d][k := v]]
  }

  lemma SetEntryIsOne(h: Heap, d: Dict, k: string, v: Value)
    requires Closed(h) && d in h && Known(h, v)
    ensures OneEntry(h, SetEntry(h, d, k, v), d, k) && Closed(SetEntry(h, d, k, v)) &&
        SetEntry(h, d, k, v).Keys == h.Keys
  {
    var g := SetEntry(h, d, k, v);
    forall e, m | e in g && m in g[e] ensures Known(g, g[e][m]) {
      assert g[e][m] == v || (m in h[e] && g[e][m] == h[e][m]);
    }
  }

  lemma GrowIsOne(h: Heap, d: Dict, k: string, n: Dict)
    requires Closed(h) && d in h && n !in h
    ensures OneEntry(h, Grow(h, d, k, n), d, k) && Closed(Grow(h, d, k, n)) && h.Keys <= Grow(h, d, k, n).Keys
  {
    GrowClosed(h, d, k, n);
  }

  lemma GrowTree(h: Heap, root: Dict, d: Dict, k: string, n: Dict)
    requires Tree(h, root) && d in h && n !in h
    ensures Tree(Grow(h, d, k, n), root)
  {
    GrowClosed(h, d, k, n);
    var g := Grow(h, d, k, n);
    forall e, m | e in g && Holds(g, e, m)
      ensures if e == d && m == k then g[e][m].dict == n else Holds(h, e, m) && g[e][m] == h[e][m] && g[e][m].dict in h
    {
      if e != d || m != k {
        assert Known(h, h[e][m]);
      }
    }
  }

  /** The entry that was set is what its path leads to. */
  lemma EntryIsRead(h: Heap, g: Heap, root: Dict, pre: Path, d: Dict, k: string)
    requires Tree(h, root) && Closed(h) && Known(h, Nested(root)) && Closed(g) && Known(g, Nested(root))
    requires At(h, Nested(root), pre) == Some(Nested(d)) && OneEntry(h, g, d, k)
    ensures At(g, Nested(root), pre + [k]) == Some(g[d][k])
  {
    hide At, Tree;
    OtherPath(h, g, root, pre, d, k, pre);
    AtSplit(g, Nested(root), pre, [k]);
    AtOne(g, Nested(d), k);
  }

  lemma IsSetStep(h: Heap, h': Heap, d: Dict, parts: Path, v: Value) returns (g: Heap, e: Dict)
    requires |parts| > 1 && IsSet(h, h', d, parts, v)
    ensures Entered(h, g, d, parts[0], e) && IsSet(g, h', e, parts[1..], v)
  {
    if parts[0] in h[d] && h[d][parts[0]].Nested? {
      g, e := h, h[d][parts[0]].dict;
    } else {
      var n :| n in h' && n !in h && IsSet(Grow(h, d, parts[0], n), h', n, parts[1..], v);
      g, e := Grow(h, d, parts[0], n), n;
    }
  }

  lemma IsSetLast(h: Heap, h': Heap, d: Dict, parts: Path, v: Value)
    requires |parts| == 1 && IsSet(h, h', d, parts, v)
    ensures d in h && h' == SetEntry(h, d, parts[0], v) && parts == [parts[0]]
  {
  }

  /** What holds again, with a longer prefix, after a step. */
  lemma StepKeeps(h: Heap, g: Heap, root: Dict, pre: Path, d: Dict, e: Dict, parts: Path, v: Value)
    requires Tree(h, root) && Closed(h) && Known(h, Nested(root)) && At(h, Nested(root), pre) == Some(Nested(d)) &&
        Known(h, v)
    requires |parts| > 1 && Entered(h, g, d, parts[0], e)
    ensures Tree(g, root) && Closed(g) && Known(g, Nested(root)) && Known(g, v)
    ensures At(g, Nested(root), pre + [parts[0]]) == Some(Nested(e))
  {
    hide Tree, At, IsSet, OneEntry;
    if parts[0] in h[d] && h[d][parts[0]].Nested? {
      AtSplit(h, Nested(root), pre, [parts[0]]);
      AtOne(h, Nested(d), parts[0]);
    } else {
      GrowTree(h, root, d, parts[0], e);
      GrowIsOne(h, d, parts[0], e);
      EntryIsRead(h, g, root, pre, d, parts[0]);
    }
  }

  lemma {:induction false} SetKeepsClosed(h: Heap, h': Heap, d: Dict, parts: Path, v: Value)
    requires parts != [] && Closed(h) && Known(h, v) && IsSet(h, h', d, parts, v)
    ensures Closed(h') && h.Keys <= h'.Keys
    decreases |parts|
  {
    if |parts| == 1 {
      IsSetLast(h, h', d, parts, v);
      hide *;
      SetEntryIsOne(h, d, parts[0], v);
    } else {
      var g, e := IsSetStep(h, h', d, parts, v);
      hide IsSet, OneEntry;
      if g != h {
        GrowIsOne(h, d, parts[0], e);
      }
      SetKeepsClosed(g, h', e, parts[1..], v);
    }
  }

  lemma Reassociate(pre: Path, parts: Path)
    requires parts != []
    ensures (pre + [parts[0]]) + parts[1..] == pre + parts
  {
  }

  lemma {:induction false} GetAfterSetFrom(h: Heap, h': Heap, root: Dict, pre: Path, d: Dict, parts: Path, v: Value)
    requires parts != [] && Tree(h, root) && Closed(h) && Known(h, Nested(root)) && Closed(h') &&
        Known(h', Nested(root))
    requires At(h, Nested(root), pre) == Some(Nested(d)) && Known(h, v) && IsSet(h, h', d, parts, v)
    ensures At(h', Nested(root), pre + parts) == Some(v)
    decreases |parts|
  {
    hide *;
    if |parts| == 1 {
      IsSetLast(h, h', d, parts, v);
      SetEntryIsOne(h, d, parts[0], v);
      EntryIsRead(h, h', root, pre, d, parts[0]);
      SetEntryValue(h, d, parts[0], v);
    } else {
      var g, e := IsSetStep(h, h', d, parts, v);
      StepKeeps(h, g, root, pre, d, e, parts, v);
      GetAfterSetFrom(g, h', root, pre + [parts[0]], e, parts[1..], v);
      Reassociate(pre, parts);
    }
  }

  lemma SetEntryValue(h: Heap, d: Dict, k: string, v: Value)
    requires d in h
    ensures d in SetEntry(h, d, k, v) && k in SetEntry(h, d, k, v)[d] && SetEntry(h, d, k, v)[d][k] == v
  {
  }

  /** Neither leads to a part of what the other leads to. */
  predicate Apart(q: Path, p: Path) { !Extends(q, p) && !Extends(p, q) }

  /** A path below a value that was no dictionary led nowhere, and leads nowhere below the new empty one. */
  lemma BelowReplaced(h: Heap, g: Heap, root: Dict, pre: Path, d: Dict, e: Dict, parts: Path, v: Value, q: Path)
    requires Tree(h, root) && Closed(h) && Known(h, Nested(root)) && At(h, Nested(root), pre) == Some(Nested(d))
    requires |parts| > 1 && Entered(h, g, d, parts[0], e) && g != h
    requires Closed(g) && Known(g, Nested(root)) && At(g, Nested(root), pre + [parts[0]]) == Some(Nested(e))
    requires Extends(q, pre + [parts[0]]) && Apart(q, pre + parts)
    ensures At(g, Nested(root), q) == At(h, Nested(root), q)
  {
    hide IsSet, Tree, Closed;
    var here := pre + [parts[0]];
    var rest := q[|here|..];
    assert q == here + rest;
    assert rest != [] by {
      assert (pre + parts)[..|here|] == here && q[..|q|] == q;
    }
    AtSplit(h, Nested(root), here, rest);
    AtSplit(g, Nested(root), here, rest);
    AtSplit(h, Nested(root), pre, [parts[0]]);
    AtOne(h, Nested(d), parts[0]);
    assert At(g, Nested(e), rest) == None;
  }

  lemma {:induction false} OthersFrom(h: Heap, h': Heap, root: Dict, pre: Path, d: Dict, parts: Path, v: Value, q: Path)
    requires parts != [] && Tree(h, root) && Closed(h) && Known(h, Nested(root)) && Closed(h') &&
        Known(h', Nested(root))
    requires At(h, Nested(root), pre) == Some(Nested(d)) && Known(h, v) && IsSet(h, h', d, parts, v) &&
        Apart(q, pre + parts)
    ensures At(h', Nested(root), q) == At(h, Nested(root), q)
    decreases |parts|
  {
    hide *;
    if |parts| == 1 {
      IsSetLast(h, h', d, parts, v);
      SetEntryIsOne(h, d, parts[0], v);
      ApartIs(q, pre + parts);
      OtherPath(h, h', root, pre, d, parts[0], q);
    } else {
      var g, e := IsSetStep(h, h', d, parts, v);
      StepKeeps(h, g, root, pre, d, e, parts, v);
      Reassociate(pre, parts);
      OthersFrom(g, h', root, pre + [parts[0]], e, parts[1..], v, q);
      if g != h {
        StepGrows(h, g, d, e, parts, v);
        if Extends(q, pre + [parts[0]]) {
          BelowReplaced(h, g, root, pre, d, e, parts, v, q);
        } else {
          OtherPath(h, g, root, pre, d, parts[0], q);
        }
      }
    }
  }

  lemma ApartIs(q: Path, p: Path)
    requires Apart(q, p)
    ensures !Extends(q, p)
  {
  }

  lemma StepGrows(h: Heap, g: Heap, d: Dict, e: Dict, parts: Path, v: Value)
    requires Closed(h) && |parts| > 1 && Entered(h, g, d, parts[0], e) && g != h
    ensures OneEntry(h, g, d, parts[0])
  {
    hide IsSet, OneEntry, Closed;
    GrowIsOne(h, d, parts[0], e);
  }

  /** Without aliasing, get after set returns the value. */
  lemma GetAfterSet(h: Heap, h': Heap, root: Dict, parts: Path, v: Value)
    requires parts != [] && Tree(h, root) && Known(h, v) && IsSet(h, h', root, parts, v)
    ensures Closed(h') && Known(h', Nested(root)) && At(h', Nested(root), parts) == Some(v)
  {
    hide *;
    TreeFacts(h, root);
    SetKeepsClosed(h, h', root, parts, v);
    RootKnown(h, h', root);
    AtNothing(h, Nested(root));
    GetAfterSetFrom(h, h', root, [], root, parts, v);
    assert [] + parts == parts;
  }

  lemma RootKnown(h: Heap, h': Heap, root: Dict)
    requires root in h && h.Keys <= h'.Keys
    ensures Known(h', Nested(root))
  {
  }

  /** Every path that is neither a prefix nor an extension of the one set reads as before. */
  lemma OtherPathsKept(h: Heap, h': Heap, root: Dict, parts: Path, v: Value, q: Path)
    requires parts != [] && Tree(h, root) && Known(h, v) && IsSet(h, h', root, parts, v) && Apart(q, parts)
    ensures Closed(h') && Closed(h) && Known(h, Nested(root)) && Known(h', Nested(root))
    ensures At(h', Nested(root), q) == At(h, Nested(root), q)
  {
    hide *;
    TreeFacts(h, root);
    SetKeepsClosed(h, h', root, parts, v);
    RootKnown(h, h', root);
    AtNothing(h, Nested(root));
    assert [] + parts == parts;
    OthersFrom(h, h', root, [], root, parts, v, q);
  }

  /** Setting a value that is not a dictionary brings in no aliasing, so the next call meets the same conditions. */
  lemma {:induction false} SetKeepsTree(h: Heap, h': Heap, root: Dict, d: Dict, parts: Path, n: int)
    requires parts != [] && Tree(h, root) && IsSet(h, h', d, parts, Scalar(n))
    ensures Tree(h', root)
    decreases |parts|
  {
    if |parts| == 1 {
      IsSetLast(h, h', d, parts, Scalar(n));
      hide IsSet;
      assert forall e, m :: e in h' && Holds(h', e, m) ==> Holds(h, e, m) && h'[e][m] == h[e][m];
    } else {
      var g, e := IsSetStep(h, h', d, parts, Scalar(n));
      hide IsSet, Tree;
      if g != h {
        GrowTree(h, root, d, parts[0], e);
      }
      SetKeepsTree(g, h', root, e, parts[1..], n);
    }
  }
}
