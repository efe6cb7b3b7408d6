/** The slog bridge: handlers derived by WithAttrs and WithGroup, and what they emit. */
module SlogSpec {

  datatype Attr = Attr(key: string, value: string)

  /** An element of the flat key/value list handed to the logger. */
  datatype Item = Key(name: string) | Val(value: string)

  /** What a handler holds: the attributes bound so far, already prefixed, and the open groups. */
  datatype View = View(attrs: seq<Item>, groups: seq<string>)

  const ROOT := View([], [])

  function JoinDots(names: seq<string>): string {
    if names == [] then ""
    else if |names| == 1 then names[0]
    else names[0] + "." + JoinDots(names[1..])
  }

  function Prefix(groups: seq<string>, key: string): string {
    if groups == [] then key else JoinDots(groups) + "." + key
  }

  function Flat(groups: seq<string>, attrs: seq<Attr>): (r: seq<Item>)
    ensures |r| == 2 * |attrs|
    decreases |attrs|
  {
    if attrs == [] then []
    else
      var a := attrs[|attrs| - 1];
      Flat(groups, attrs[..|attrs| - 1]) + [Key(Prefix(groups, a.key)), Val(a.value)]
  }

  datatype Op = WithAttrs(attrs: seq<Attr>) | WithGroup(name: string)

  function Derive(v: View, op: Op): View {
    match op
    case WithAttrs(attrs) => View(v.attrs + Flat(v.groups, attrs), v.groups)
    case WithGroup(name) => if name == "" then v else View(v.attrs, v.groups + [name])
  }

  /** The handler reached from the root by these derivations. */
  function DeriveAll(path: seq<Op>): View
    decreases |path|
  {
    if path == [] then ROOT else Derive(DeriveAll(path[..|path| - 1]), path[|path| - 1])
  }

  function Emit(v: View, msg: string, attrs: seq<Attr>): seq<Item> {
    [Key("msg"), Val(msg)] + v.attrs + Flat(v.groups, attrs)
  }

  // ----- what the handlers should emit, read off the path from the root

  /** The groups a path opens, in order; the empty name opens none. */
  function Opened(path: seq<Op>): seq<string> {
    if path == [] then []
    else (if path[0].WithGroup? && path[0].name != "" then [path[0].name] else []) + Opened(path[1..])
  }

  /** The attributes bound along a path, each under the groups open where it was bound. */
  function Bound(open: seq<string>, path: seq<Op>): seq<Item>
    decreases path
  {
    if path == [] then []
    else
      match path[0]
      case WithAttrs(attrs) => Flat(open, attrs) + Bound(open, path[1..])
      case WithGroup(name) => Bound(if name == "" then open else open + [name], path[1..])
  }

  lemma {:induction false} OpenedSnoc(path: seq<Op>, op: Op)
    ensures Opened(path + [op]) == Opened(path) + Opened([op])
  {
    if path == [] {
      assert path + [op] == [op];
    } else {
      OpenedSnoc(path[1..], op);
      assert (path + [op])[1..] == path[1..] + [op];
      var head := if path[0].WithGroup? && path[0].name != "" then [path[0].name] else [];
      assert Opened(path + [op]) == head + (Opened(path[1..]) + Opened([op]));
    }
  }

  lemma {:induction false} BoundSnoc(open: seq<string>, path: seq<Op>, op: Op)
    ensures Bound(open, path + [op]) == Bound(open, path) + Bound(open + Opened(path), [op])
    decreases path
  {
    if path == [] {
      assert path + [op] == [op];
      assert open + Opened(path) == open;
    } else {
      assert (path + [op])[1..] == path[1..] + [op];
      match path[0]
      case WithAttrs(attrs) =>
        BoundSnoc(open, path[1..], op);
        assert Opened(path) == Opened(path[1..]);
        Associate(Flat(open, attrs), Bound(open, path[1..]), Bound(open + Opened(path), [op]));
      case WithGroup(name) =>
        var open' := if name == "" then open else open + [name];
        BoundSnoc(open', path[1..], op);
        assert open' + Opened(path[1..]) == open + Opened(path);
    }
  }

  lemma Associate(a: seq<Item>, b: seq<Item>, c: seq<Item>)
    ensures a + (b + c) == a + b + c
  {}

  lemma {:induction false} DeriveAllMeaning(path: seq<Op>)
    ensures DeriveAll(path) == View(Bound([], path), Opened(path))
    decreases |path|
  {
    if path != [] {
      var before, op := path[..|path| - 1], path[|path| - 1];
      DeriveAllMeaning(before);
      assert path == before + [op];
      OpenedSnoc(before, op);
      BoundSnoc([], before, op);
      OneOp(Opened(before), op);
      assert [] + Opened(before) == Opened(before);
    }
  }

  lemma OneOp(open: seq<string>, op: Op)
    ensures Bound(open, [op]) == if op.WithAttrs? then Flat(open, op.attrs) else []
    ensures Opened([op]) == if op.WithGroup? && op.name != "" then [op.name] else []
  {
    assert [op][1..] == [];
  }

  /**
   * A handler emits the message, then every attribute bound on the way from the root, each
   * prefixed by the groups open when it was bound, then the record's own attributes under all
   * open groups: always a whole number of key/value pairs.
   */
  lemma EmitMeaning(path: seq<Op>, msg: string, attrs: seq<Attr>)
    ensures Emit(DeriveAll(path), msg, attrs) ==
            [Key("msg"), Val(msg)] + Bound([], path) + Flat(Opened(path), attrs)
    ensures Alternates(Emit(DeriveAll(path), msg, attrs))
  {
    DeriveAllMeaning(path);
    BoundAlternates([], path);
    FlatAlternates(Opened(path), attrs);
    AlternatesConcat([Key("msg"), Val(msg)], Bound([], path));
    AlternatesConcat([Key("msg"), Val(msg)] + Bound([], path), Flat(Opened(path), attrs));
  }

  /** Keys at the even places, values at the odd ones, and as many of each. */
  ghost predicate Alternates(s: seq<Item>) {
    |s| % 2 == 0 && forall i | 0 <= i < |s| :: s[i].Key? <==> i % 2 == 0
  }

  lemma AlternatesConcat(a: seq<Item>, b: seq<Item>)
    requires Alternates(a) && Alternates(b)
    ensures Alternates(a + b)
  {
    forall i | 0 <= i < |a + b| ensures (a + b)[i].Key? <==> i % 2 == 0 {
      if i >= |a| { assert (a + b)[i] == b[i - |a|]; }
    }
  }

  lemma {:induction false} FlatAlternates(groups: seq<string>, attrs: seq<Attr>)
    ensures Alternates(Flat(groups, attrs))
    decreases |attrs|
  {
    if attrs != [] {
      var a := attrs[|attrs| - 1];
      FlatAlternates(groups, attrs[..|attrs| - 1]);
      AlternatesConcat(Flat(groups, attrs[..|attrs| - 1]), [Key(Prefix(groups, a.key)), Val(a.value)]);
    }
  }

  lemma {:induction false} BoundAlternates(open: seq<string>, path: seq<Op>)
    ensures Alternates(Bound(open, path))
    decreases |path|
  {
    if path != [] {
      match path[0]
      case WithAttrs(attrs) =>
        FlatAlternates(open, attrs);
        BoundAlternates(open, path[1..]);
        AlternatesConcat(Flat(open, attrs), Bound(open, path[1..]));
      case WithGroup(name) =>
        BoundAlternates(if name == "" then open else open + [name], path[1..]);
    }
  }

  /** A key under no group is itself; under some, it is the outermost one, a dot, and the key under the others. */
  lemma PrefixUnfolds(groups: seq<string>, key: string)
    ensures Prefix([], key) == key
    ensures groups != [] ==> Prefix(groups, key) == groups[0] + "." + Prefix(groups[1..], key)
  {
    if |groups| > 1 {
      var outer, rest := groups[0], JoinDots(groups[1..]);
      assert outer + "." + rest + "." + key == outer + "." + (rest + "." + key);
    }
  }

  /** A prefixed key is the open groups and the key, dotted together. */
  lemma {:induction false} PrefixIsDotted(groups: seq<string>, key: string)
    ensures Prefix(groups, key) == JoinDots(groups + [key])
  {
    if groups == [] {
      assert groups + [key] == [key];
    } else {
      PrefixIsDotted(groups[1..], key);
      assert (groups + [key])[1..] == groups[1..] + [key];
      if |groups| > 1 {
        assert groups[0] + "." + JoinDots(groups[1..]) + "." + key
            == groups[0] + "." + (JoinDots(groups[1..]) + "." + key);
      }
    }
  }

  /** Attributes come out in order: the i-th one's dotted key at place 2 * i, its value after that. */
  lemma {:induction false} FlatAt(groups: seq<string>, attrs: seq<Attr>, i: nat)
    requires i < |attrs|
    ensures Flat(groups, attrs)[2 * i] == Key(JoinDots(groups + [attrs[i].key]))
    ensures Flat(groups, attrs)[2 * i + 1] == Val(attrs[i].value)
    decreases |attrs|
  {
    var n := |attrs| - 1;
    var before := Flat(groups, attrs[..n]);
    PrefixIsDotted(groups, attrs[i].key);
    if i < n {
      FlatAt(groups, attrs[..n], i);
      assert Flat(groups, attrs)[2 * i] == before[2 * i] && Flat(groups, attrs)[2 * i + 1] == before[2 * i + 1];
    } else {
      assert |before| == 2 * i;
    }
  }

  lemma FlatSnoc(groups: seq<string>, attrs: seq<Attr>, n: nat)
    requires n < |attrs|
    ensures Flat(groups, attrs[..n + 1]) ==
            Flat(groups, attrs[..n]) + [Key(Prefix(groups, attrs[n].key)), Val(attrs[n].value)]
  {
    assert attrs[..n + 1][..n] == attrs[..n];
  }
}

/**
 * The handlers as the program keeps them, with Go's slices: a length over a backing array that
 * other slices may share and that append writes into while there is room.
 */
module Slog {
  import opened SlogSpec

  datatype Slice<T> = Slice(arr: array<T>, len: nat)

  ghost predicate InBounds<T>(s: Slice<T>) { s.len <= s.arr.Length }

  /** append: in place if the capacity allows, into a larger array of some capacity otherwise. */
  method Append<T(0)>(s: Slice<T>, x: T) returns (r: Slice<T>)
    requires InBounds(s)
    modifies s.arr
    ensures InBounds(r) && r.len == s.len + 1
    ensures r.arr[..r.len] == old(s.arr[..s.len]) + [x]
    ensures r.arr == s.arr || fresh(r.arr)
  {
    if s.len < s.arr.Length {
      s.arr[s.len] := x;
      r := Slice(s.arr, s.len + 1);
    } else {
      var cap: nat :| cap > s.len;
      var grown := new T[cap];
      forall i | 0 <= i < s.len { grown[i] := s.arr[i]; }
      grown[s.len] := x;
      r := Slice(grown, s.len + 1);
    }
  }

  /** append of a whole slice to a new empty one: a copy, with whatever spare capacity. */
  method Clone<T(0)>(s: Slice<T>) returns (r: Slice<T>)
    requires InBounds(s)
    ensures InBounds(r) && fresh(r.arr)
    ensures r.arr[..r.len] == s.arr[..s.len]
  {
    var cap: nat :| cap >= s.len;
    var copy := new T[cap];
    forall i | 0 <= i < s.len { copy[i] := s.arr[i]; }
    r := Slice(copy, s.len);
  }

  class Handler {
    var attrs: Slice<Item>
    var groups: Slice<string>

    ghost predicate Valid()
      reads this
    {
      InBounds(attrs) && InBounds(groups)
    }

    ghost function Holds(): View
      requires Valid()
      reads this, attrs.arr, groups.arr
    {
      View(attrs.arr[..attrs.len], groups.arr[..groups.len])
    }

    constructor Init(attrs: Slice<Item>, groups: Slice<string>)
      ensures this.attrs == attrs && this.groups == groups
    {
      this.attrs := attrs;
      this.groups := groups;
    }

    /** Append these attributes, prefixed by this handler's groups, to a slice nobody else has. */
    method AppendAttrs(s: Slice<Item>, list: seq<Attr>) returns (r: Slice<Item>)
      requires Valid() && InBounds(s) && s.arr != attrs.arr
      modifies s.arr
      ensures InBounds(r) && (r.arr == s.arr || fresh(r.arr))
      ensures r.arr[..r.len] == old(s.arr[..s.len]) + Flat(Holds().groups, list)
    {
      r := s;
      var open := groups.arr[..groups.len];
      assert list[..0] == [];
      for i := 0 to |list|
        invariant InBounds(r) && (r.arr == s.arr || fresh(r.arr))
        invariant r.arr[..r.len] == old(s.arr[..s.len]) + Flat(open, list[..i])
      {
        FlatSnoc(open, list, i);
        r := Append(r, Key(Prefix(open, list[i].key)));
        r := Append(r, Val(list[i].value));
      }
      assert list[..|list|] == list;
    }

    /** No existing handler changes: the method may write to nothing that was there before. */
    method WithAttrs(list: seq<Attr>) returns (c: Handler)
      requires Valid()
      ensures fresh(c) && c.Valid() && c.Holds() == Derive(Holds(), SlogSpec.WithAttrs(list))
      ensures c.groups == groups
    {
      var bound := Clone(attrs);
      bound := AppendAttrs(bound, list);
      c := new Handler.Init(bound, groups);
    }

    method WithGroup(name: string) returns (c: Handler)
      requires Valid()
      ensures c.Valid() && c.Holds() == Derive(Holds(), SlogSpec.WithGroup(name))
      ensures name == "" ==> c == this
      ensures name != "" ==> fresh(c) && c.attrs == attrs
    {
      if name == "" {
        return this;
      }
      var open := Clone(groups);
      open := Append(open, name);
      c := new Handler.Init(attrs, open);
    }

    method Handle(msg: string, record: seq<Attr>) returns (kv: seq<Item>)
      requires Valid()
      ensures kv == Emit(Holds(), msg, record)
    {
      var room := new Item[2 + attrs.len + 2 * |record|];
      var out := Slice(room, 0);
      out := Append(out, Key("msg"));
      out := Append(out, Val(msg));
      for i := 0 to attrs.len
        invariant InBounds(out) && fresh(out.arr)
        invariant out.arr[..out.len] == [Key("msg"), Val(msg)] + attrs.arr[..i]
      {
        out := Append(out, attrs.arr[i]);
      }
      out := AppendAttrs(out, record);
      kv := out.arr[..out.len];
    }
  }

  method NewRoot() returns (h: Handler)
    ensures fresh(h) && h.Valid() && h.Holds() == ROOT
  {
    var noAttrs, noGroups := new Item[0], new string[0];
    h := new Handler.Init(Slice(noAttrs, 0), Slice(noGroups, 0));
  }

  /** The derivations from the root to handler i, when handler j + 1 comes from handler parents[j] by ops[j]. */
  function PathOf(parents: seq<nat>, ops: seq<Op>, i: nat): seq<Op>
    requires |parents| == |ops| && i <= |ops| && forall j | 0 <= j < |parents| :: parents[j] <= j
  {
    if i == 0 then [] else PathOf(parents, ops, parents[i - 1]) + [ops[i - 1]]
  }

  lemma PathStep(parents: seq<nat>, ops: seq<Op>, n: nat)
    requires |parents| == |ops| && n < |ops| && forall j | 0 <= j < |parents| :: parents[j] <= j
    ensures DeriveAll(PathOf(parents, ops, n + 1)) == Derive(DeriveAll(PathOf(parents, ops, parents[n])), ops[n])
  {
    var path := PathOf(parents, ops, n + 1);
    assert path[..|path| - 1] == PathOf(parents, ops, parents[n]);
  }

  method DeriveOne(parent: Handler, op: Op) returns (child: Handler)
    requires parent.Valid()
    ensures child.Valid() && child.Holds() == Derive(parent.Holds(), op)
  {
    match op {
      case WithAttrs(attrs) => child := parent.WithAttrs(attrs);
      case WithGroup(name) => child := parent.WithGroup(name);
    }
  }

  /** Each handler holds what is expected of it. */
  ghost predicate AllHold(hs: seq<Handler>, views: seq<View>)
    reads hs, set h | h in hs :: h.attrs.arr, set h | h in hs :: h.groups.arr
  {
    |hs| == |views| && forall i | 0 <= i < |hs| :: hs[i].Valid() && hs[i].Holds() == views[i]
  }

  method Extend(hs: seq<Handler>, ghost views: seq<View>, p: nat, op: Op) returns (more: seq<Handler>)
    requires AllHold(hs, views) && p < |hs|
    ensures |more| == |hs| + 1 && AllHold(more, views + [Derive(views[p], op)])
  {
    var child := DeriveOne(hs[p], op);
    assert forall i | 0 <= i < |hs| :: hs[i].Valid() && hs[i].Holds() == views[i];
    more := hs + [child];
  }

  /** What handlers 0 .. n of a tree hold, each derived from its parent's view. */
  function TreeViews(parents: seq<nat>, ops: seq<Op>, n: nat): (r: seq<View>)
    requires |parents| == |ops| && n <= |ops| && forall j | 0 <= j < |parents| :: parents[j] <= j
    ensures |r| == n + 1
  {
    if n == 0 then [ROOT]
    else
      var before := TreeViews(parents, ops, n - 1);
      before + [Derive(before[parents[n - 1]], ops[n - 1])]
  }

  /** In a tree, what a handler holds depends on its own path from the root and on nothing else. */
  lemma {:induction false} TreeViewsFollowPaths(parents: seq<nat>, ops: seq<Op>, n: nat)
    requires |parents| == |ops| && n <= |ops| && forall j | 0 <= j < |parents| :: parents[j] <= j
    ensures forall i | 0 <= i <= n :: TreeViews(parents, ops, n)[i] == DeriveAll(PathOf(parents, ops, i))
  {
    if n > 0 {
      TreeViewsFollowPaths(parents, ops, n - 1);
      PathStep(parents, ops, n - 1);
    }
  }

  /**
   * Derive a whole tree of handlers, in any order and sharing slices freely. When it is done,
   * every handler of the tree still holds exactly what it held when it was derived.
   */
  method DeriveTree(parents: seq<nat>, ops: seq<Op>) returns (hs: seq<Handler>)
    requires |parents| == |ops| && forall j | 0 <= j < |parents| :: parents[j] <= j
    ensures AllHold(hs, TreeViews(parents, ops, |ops|))
  {
    var root := NewRoot();
    hs := [root];
    for n := 0 to |ops|
      invariant |hs| == n + 1
      invariant AllHold(hs, TreeViews(parents, ops, n))
    {
      hs := Extend(hs, TreeViews(parents, ops, n), parents[n], ops[n]);
    }
  }
}
