/** Layering .env files over the process environment. */
module Loader {
  import opened Wrappers
  import opened Text
  import opened DotEnv

  type Vars = map<string, string>

  /** What os.Stat finds at a path: something that cannot be read, or a file's text. */
  datatype File = Unreadable | Content(data: string)

  function Lookup(vars: Vars, key: string): Option<string> { if key in vars then Some(vars[key]) else None }

  /** The pairs setenv accepts; for the others os.Setenv fails, and that error is ignored. */
  predicate Settable(p: Pair) {
    p.0 != "" && '=' !in p.0 && '\0' !in p.0 && '\0' !in p.1
  }

  /** A variable that exists, even with an empty value, is left alone. */
  function SetIfAbsent(vars: Vars, p: Pair): Vars {
    if p.0 in vars || !Settable(p) then vars else vars[p.0 := p.1]
  }

  function Apply(vars: Vars, pairs: seq<Pair>): Vars
    decreases |pairs|
  {
    if pairs == [] then vars else SetIfAbsent(Apply(vars, pairs[..|pairs| - 1]), pairs[|pairs| - 1])
  }

  /** The value of the first of these pairs that sets this key. */
  function First(pairs: seq<Pair>, key: string): Option<string> {
    if pairs == [] then None
    else if pairs[0].0 == key && Settable(pairs[0]) then Some(pairs[0].1)
    else First(pairs[1..], key)
  }

  /** A file as the loader takes it: unreadable, or the pairs it defines. */
  datatype Layer = Broken | Pairs(pairs: seq<Pair>)

  function LayerOf(f: Option<File>): Layer {
    match f
    case None => Pairs([])
    case Some(Unreadable) => Broken
    case Some(Content(data)) => Pairs(Parse(data))
  }

  /** The file of this name in the first directory that has one. */
  function Found(files: map<(string, string), File>, dirs: seq<string>, name: string): Option<File> {
    if dirs == [] then None
    else if (dirs[0], name) in files then Some(files[(dirs[0], name)])
    else Found(files, dirs[1..], name)
  }

  /** One layer after the other; a broken one ends it. */
  function LoadAll(vars: Vars, layers: seq<Layer>): (Vars, bool)
    decreases |layers|
  {
    if layers == [] then (vars, true)
    else
      var (v, ok) := LoadAll(vars, layers[..|layers| - 1]);
      match layers[|layers| - 1]
      case Broken => (v, false)
      case Pairs(ps) => if ok then (Apply(v, ps), true) else (v, false)
  }

  class Environment {
    var vars: Vars

    constructor (vars: Vars)
      ensures this.vars == vars
    {
      this.vars := vars;
    }

    method LoadDotEnv(f: File) returns (ok: bool)
      modifies this
      ensures ok == f.Content?
      ensures vars == if ok then Apply(old(vars), Parse(f.data)) else old(vars)
    {
      if !f.Content? {
        return false;
      }
      var lines := Split(f.data);
      for i := 0 to |lines|
        invariant vars == Apply(old(vars), ParseLines(lines[..i]))
      {
        ParseLinesSnoc(lines, i);
        ApplySnoc(old(vars), ParseLines(lines[..i]), PairsIn(lines[i]));
        SetPair(ParseLine(lines[i]));
      }
      assert lines[..|lines|] == lines;
      ok := true;
    }

    /** Set the pair a line asks for, unless the variable exists. */
    method SetPair(p: Option<Pair>)
      modifies this
      ensures vars == Apply(old(vars), if p.None? then [] else [p.value])
    {
      if p.Some? && p.value.0 !in vars && Settable(p.value) {
        vars := vars[p.value.0 := p.value.1];
      }
      assert p.Some? ==> [p.value][..0] == [];
    }

    method LoadLayer(files: map<(string, string), File>, dirs: seq<string>, name: string) returns (ok: bool)
      modifies this
      ensures (vars, ok) ==
              match LayerOf(Found(files, dirs, name))
              case Broken => (old(vars), false)
              case Pairs(ps) => (Apply(old(vars), ps), true)
    {
      var dir := FindFile(files, dirs, name);
      if dir.Some? {
        ok := LoadDotEnv(files[(dir.value, name)]);
      } else {
        ok := true;
      }
    }

    /** The global file, then the example, then the service's own. */
    method Load(files: map<(string, string), File>, dirs: seq<string>) returns (ok: bool)
      modifies this
      ensures (vars, ok) ==
              LoadThree(old(vars), Found(files, dirs, ".env.global"), Found(files, dirs, ".env.example"),
                        Found(files, dirs, ".env"))
    {
      ghost var g, e, s := LayerOf(Found(files, dirs, ".env.global")), LayerOf(Found(files, dirs, ".env.example")),
                           LayerOf(Found(files, dirs, ".env"));
      ThreeSteps(vars, g, e, s);
      ok := LoadLayer(files, dirs, ".env.global");
      if !ok {
        return;
      }
      ok := LoadLayer(files, dirs, ".env.example");
      if !ok {
        return;
      }
      ok := LoadLayer(files, dirs, ".env");
    }
  }

  /** Load, once its three files are found. */
  function LoadThree(vars: Vars, global: Option<File>, example: Option<File>, service: Option<File>): (Vars, bool) {
    LoadAll(vars, [LayerOf(global), LayerOf(example), LayerOf(service)])
  }

  lemma ApplySnoc(vars: Vars, pairs: seq<Pair>, more: seq<Pair>)
    requires |more| <= 1
    ensures Apply(vars, pairs + more) == Apply(Apply(vars, pairs), more)
  {
    if more == [] {
      assert pairs + more == pairs;
    } else {
      assert (pairs + more)[..|pairs|] == pairs;
      assert more[..0] == [];
    }
  }

  function Stage(before: (Vars, bool), l: Layer): (Vars, bool) {
    match l
    case Broken => (before.0, false)
    case Pairs(ps) => if before.1 then (Apply(before.0, ps), true) else (before.0, false)
  }

  lemma ThreeSteps(vars: Vars, g: Layer, e: Layer, s: Layer)
    ensures LoadAll(vars, [g, e, s]) == Stage(Stage(Stage((vars, true), g), e), s)
  {
    assert [g, e, s][..2] == [g, e];
    assert [g, e][..1] == [g];
    assert [g][..0] == [];
    assert LoadAll(vars, [g]) == Stage((vars, true), g);
    assert LoadAll(vars, [g, e]) == Stage(LoadAll(vars, [g]), e);
  }

  /** The i-th directory has a file of this name, and no earlier one does. */
  ghost predicate FirstHit(files: map<(string, string), File>, dirs: seq<string>, name: string, i: int) {
    && 0 <= i < |dirs| && (dirs[i], name) in files
    && forall j | 0 <= j < i :: (dirs[j], name) !in files
  }

  /** The search stops at the first directory that has the file. */
  method FindFile(files: map<(string, string), File>, dirs: seq<string>, name: string) returns (dir: Option<string>)
    ensures dir.Some? ==> exists i :: FirstHit(files, dirs, name, i) && dir.value == dirs[i]
    ensures dir.Some? ==> (dir.value, name) in files && Found(files, dirs, name) == Some(files[(dir.value, name)])
    ensures dir.None? ==> Found(files, dirs, name) == None && forall d | d in dirs :: (d, name) !in files
  {
    for i := 0 to |dirs|
      invariant forall j | 0 <= j < i :: (dirs[j], name) !in files
    {
      if (dirs[i], name) in files {
        assert FirstHit(files, dirs, name, i);
        FoundAt(files, dirs, name, i);
        return Some(dirs[i]);
      }
    }
    dir := None;
    if Found(files, dirs, name).Some? {
      var i := HitOfFound(files, dirs, name);
      assert false;
    }
  }

  lemma {:induction false} FoundAt(files: map<(string, string), File>, dirs: seq<string>, name: string, i: int)
    requires FirstHit(files, dirs, name, i)
    ensures Found(files, dirs, name) == Some(files[(dirs[i], name)])
    decreases |dirs|
  {
    if i > 0 {
      assert forall j | 0 <= j < |dirs| - 1 :: dirs[1..][j] == dirs[j + 1];
      FoundAt(files, dirs[1..], name, i - 1);
    }
  }

  lemma {:induction false} HitOfFound(files: map<(string, string), File>, dirs: seq<string>, name: string)
    returns (i: int)
    requires Found(files, dirs, name).Some?
    ensures FirstHit(files, dirs, name, i)
    decreases |dirs|
  {
    if (dirs[0], name) in files {
      i := 0;
    } else {
      i := HitOfFound(files, dirs[1..], name);
      i := i + 1;
    }
  }

  /** What is found is the file in the first directory that has one. */
  lemma {:induction false} FoundIff(files: map<(string, string), File>, dirs: seq<string>, name: string, f: File)
    ensures Found(files, dirs, name) == Some(f) <==>
            exists i :: FirstHit(files, dirs, name, i) && files[(dirs[i], name)] == f
  {
    if i :| FirstHit(files, dirs, name, i) && files[(dirs[i], name)] == f {
      FoundAt(files, dirs, name, i);
    }
    if Found(files, dirs, name) == Some(f) {
      var i := HitOfFound(files, dirs, name);
      FoundAt(files, dirs, name, i);
    }
  }

  // ----- what the layering means

  lemma {:induction false} FirstConcat(a: seq<Pair>, b: seq<Pair>, key: string)
    ensures First(a + b, key) == if First(a, key).Some? then First(a, key) else First(b, key)
  {
    if a == [] {
      assert a + b == b;
    } else {
      FirstConcat(a[1..], b, key);
      assert (a + b)[1..] == a[1..] + b;
    }
  }

  /** The i-th pair can be set and has this key, and no earlier one does. */
  ghost predicate FirstSets(pairs: seq<Pair>, key: string, i: int) {
    && 0 <= i < |pairs| && pairs[i].0 == key && Settable(pairs[i])
    && forall j | 0 <= j < i :: pairs[j].0 != key || !Settable(pairs[j])
  }

  lemma {:induction false} FirstAt(pairs: seq<Pair>, key: string, i: int)
    requires FirstSets(pairs, key, i)
    ensures First(pairs, key) == Some(pairs[i].1)
    decreases |pairs|
  {
    if i > 0 {
      assert forall j | 0 <= j < |pairs| - 1 :: pairs[1..][j] == pairs[j + 1];
      FirstAt(pairs[1..], key, i - 1);
    }
  }

  lemma {:induction false} SetsOfFirst(pairs: seq<Pair>, key: string) returns (i: int)
    requires First(pairs, key).Some?
    ensures FirstSets(pairs, key, i)
    decreases |pairs|
  {
    if pairs[0].0 == key && Settable(pairs[0]) {
      i := 0;
    } else {
      i := SetsOfFirst(pairs[1..], key);
      i := i + 1;
    }
  }

  /** The first value of a key is that of the first pair that can be set and has it. */
  lemma {:induction false} FirstIff(pairs: seq<Pair>, key: string, val: string)
    ensures First(pairs, key) == Some(val) <==> exists i :: FirstSets(pairs, key, i) && pairs[i].1 == val
  {
    if i :| FirstSets(pairs, key, i) && pairs[i].1 == val {
      FirstAt(pairs, key, i);
    }
    if First(pairs, key) == Some(val) {
      var i := SetsOfFirst(pairs, key);
      FirstAt(pairs, key, i);
    }
  }

  /** Of the pairs of a file, all can be set but those with a NUL in them. */
  lemma SettableInFile(data: string, i: nat)
    requires i < |Parse(data)|
    ensures Settable(Parse(data)[i]) <==> '\0' !in Parse(data)[i].0 && '\0' !in Parse(data)[i].1
  {
    ParsedPairsAreClean(data);
    assert CleanPair(Parse(data)[i]);
  }

  /** Applying pairs keeps what was set and gives every other key its first value. */
  lemma {:induction false} ApplyLooksUp(vars: Vars, pairs: seq<Pair>, key: string)
    ensures Lookup(Apply(vars, pairs), key) == if key in vars then Some(vars[key]) else First(pairs, key)
    decreases |pairs|
  {
    if pairs != [] {
      var before, p := pairs[..|pairs| - 1], pairs[|pairs| - 1];
      ApplyLooksUp(vars, before, key);
      FirstConcat(before, [p], key);
      assert pairs == before + [p];
      assert [p][1..] == [];
    }
  }

  /**
   * With every found file readable, the environment ends as it was, extended with each other
   * key's first value in the global file, then the example, then the service's file.
   */
  lemma LoadMeaning(vars: Vars, g: seq<Pair>, e: seq<Pair>, s: seq<Pair>, key: string)
    ensures LoadAll(vars, [Pairs(g), Pairs(e), Pairs(s)]).1
    ensures Lookup(LoadAll(vars, [Pairs(g), Pairs(e), Pairs(s)]).0, key) ==
            if key in vars then Some(vars[key]) else First(g + e + s, key)
  {
    ThreeSteps(vars, Pairs(g), Pairs(e), Pairs(s));
    ApplyLooksUp(vars, g, key);
    ApplyLooksUp(Apply(vars, g), e, key);
    ApplyLooksUp(Apply(Apply(vars, g), e), s, key);
    FirstConcat(g, e, key);
    FirstConcat(g + e, s, key);
  }

  /** The pairs of a file, none if there is no file or it cannot be read. */
  function PairsOf(f: Option<File>): seq<Pair> {
    match f
    case Some(Content(data)) => Parse(data)
    case _ => []
  }

  /** The pairs Load gets to see: up to the first file that cannot be read. */
  function Seen(global: Option<File>, example: Option<File>, service: Option<File>): seq<Pair> {
    if global == Some(Unreadable) then []
    else if example == Some(Unreadable) then PairsOf(global)
    else PairsOf(global) + PairsOf(example) + PairsOf(service)
  }

  lemma StagePairs(before: (Vars, bool), f: Option<File>)
    ensures Stage(before, LayerOf(f)) ==
            if !before.1 || f == Some(Unreadable) then (before.0, false) else (Apply(before.0, PairsOf(f)), true)
  {}

  /**
   * What Load does to the environment, from the files it found: it succeeds if and only if it can
   * read them all; every variable that was set, even to nothing, keeps its value, and every other
   * one gets its first value in the global file, then the example, then the service's, as far as
   * these were read.
   */
  lemma LoadFilesMeaning(vars: Vars, global: Option<File>, example: Option<File>, service: Option<File>, key: string)
    ensures var (after, ok) := LoadThree(vars, global, example, service);
            && (ok <==> Some(Unreadable) !in [global, example, service])
            && Lookup(after, key) == if key in vars then Some(vars[key]) else First(Seen(global, example, service), key)
  {
    var g, e, s := PairsOf(global), PairsOf(example), PairsOf(service);
    ThreeSteps(vars, LayerOf(global), LayerOf(example), LayerOf(service));
    var one := Stage((vars, true), LayerOf(global));
    StagePairs((vars, true), global);
    var two := Stage(one, LayerOf(example));
    StagePairs(one, example);
    StagePairs(two, service);
    ApplyLooksUp(vars, g, key);
    ApplyLooksUp(Apply(vars, g), e, key);
    ApplyLooksUp(Apply(Apply(vars, g), e), s, key);
    FirstConcat(g, e, key);
    FirstConcat(g + e, s, key);
    assert service == Some(Unreadable) ==> g + e + s == g + e;
  }

  lemma {:induction false} KeysStay(vars: Vars, pairs: seq<Pair>)
    ensures vars.Keys <= Apply(vars, pairs).Keys
    ensures forall i | 0 <= i < |pairs| && Settable(pairs[i]) :: pairs[i].0 in Apply(vars, pairs)
    decreases |pairs|
  {
    if pairs != [] { KeysStay(vars, pairs[..|pairs| - 1]); }
  }

  lemma {:induction false} NothingNew(vars: Vars, pairs: seq<Pair>)
    requires forall i | 0 <= i < |pairs| && Settable(pairs[i]) :: pairs[i].0 in vars
    ensures Apply(vars, pairs) == vars
    decreases |pairs|
  {
    if pairs != [] { NothingNew(vars, pairs[..|pairs| - 1]); }
  }

  /** A second Load changes nothing and ends the same way, whether or not the first one failed. */
  lemma SecondLoadChangesNothing(vars: Vars, layers: seq<Layer>)
    ensures LoadAll(LoadAll(vars, layers).0, layers) == LoadAll(vars, layers)
  {
    AgainFrom(vars, layers, LoadAll(vars, layers).0);
  }

  lemma {:induction false} AgainFrom(vars: Vars, layers: seq<Layer>, more: Vars)
    requires LoadAll(vars, layers).0.Keys <= more.Keys
    ensures LoadAll(more, layers) == (more, LoadAll(vars, layers).1)
    decreases |layers|
  {
    if layers != [] {
      var n := |layers| - 1;
      var (v, ok) := LoadAll(vars, layers[..n]);
      if layers[n].Pairs? && ok {
        KeysStay(v, layers[n].pairs);
        AgainFrom(vars, layers[..n], more);
        NothingNew(more, layers[n].pairs);
      } else {
        AgainFrom(vars, layers[..n], more);
      }
    }
  }

  /** The order the package documents: environment, service file, global file, example. */
  function Documented(vars: Vars, g: seq<Pair>, e: seq<Pair>, s: seq<Pair>, key: string): Option<string> {
    if key in vars then Some(vars[key]) else First(s + g + e, key)
  }

  /** The key's value under the load order is the one the service's file gives it, or that file has none. */
  ghost predicate NoConflict(g: seq<Pair>, e: seq<Pair>, s: seq<Pair>, key: string) {
    First(s, key).None? || First(g + e, key).None? || First(g + e, key) == First(s, key)
  }

  lemma DocumentedAtKey(vars: Vars, g: seq<Pair>, e: seq<Pair>, s: seq<Pair>, key: string)
    ensures Lookup(LoadAll(vars, [Pairs(g), Pairs(e), Pairs(s)]).0, key) == Documented(vars, g, e, s, key) <==>
            key in vars || NoConflict(g, e, s, key)
  {
    LoadMeaning(vars, g, e, s, key);
    FirstConcat(g + e, s, key);
    assert s + g + e == s + (g + e);
    FirstConcat(s, g + e, key);
  }

  /**
   * The documented order is what Load delivers if and only if no key that was unset at the
   * start and that the service's file defines has another first value in the global file, or in
   * the example when the global file does not define it.
   */
  lemma DocumentedOrderIff(vars: Vars, g: seq<Pair>, e: seq<Pair>, s: seq<Pair>)
    ensures (forall key :: Lookup(LoadAll(vars, [Pairs(g), Pairs(e), Pairs(s)]).0, key) == Documented(vars, g, e, s, key))
            <==> (forall key | key !in vars :: NoConflict(g, e, s, key))
  {
    forall key
      ensures Lookup(LoadAll(vars, [Pairs(g), Pairs(e), Pairs(s)]).0, key) == Documented(vars, g, e, s, key) <==>
              key in vars || NoConflict(g, e, s, key)
    {
      DocumentedAtKey(vars, g, e, s, key);
    }
  }

  /** The documented order fails as soon as the global and the service's file disagree on one key. */
  lemma GlobalBeatsService()
    ensures var g, s := [("SHARED", "from-global")], [("SHARED", "from-service")];
            && Lookup(LoadAll(map[], [Pairs(g), Pairs([]), Pairs(s)]).0, "SHARED") == Some("from-global")
            && Documented(map[], g, [], s, "SHARED") == Some("from-service")
  {
    LoadMeaning(map[], [("SHARED", "from-global")], [], [("SHARED", "from-service")], "SHARED");
  }
}
