/**
 * The records the cache keeps per component: `BevyComponent`, holding the
 * parameter tree `BevyComponentParm` built from the component's JSON value.
 */
module Parms {
  import opened Wrappers
  import opened Json
  import ShortName

  /** One node of a parameter tree (`BevyComponentParm`); its tooltip is never set. */
  datatype Parm = Parm(
    name: string,
    value: Value,
    collapsible: bool,
    description: Option<string>,
    subparms: Option<seq<Parm>>)

  /** The record for one component path of one entity (`BevyComponent`); its description is never set. */
  datatype Component = Component(
    entity: int,
    path: string,
    name: string,
    tooltip: string,
    parms: seq<Parm>)

  /**
   * What the `BevyComponentParm` constructor builds: an array or object becomes a
   * collapsible node with one sub-parameter per key, in order; anything else a
   * leaf described by its text.
   */
  function BuildParm(name: string, v: Value): (p: Parm)
    ensures p.name == name && p.value == v
    ensures p.collapsible <==> IsBranch(v)
    ensures p.subparms.Some? <==> IsBranch(v)
    ensures p.description.Some? <==> !IsBranch(v)
    decreases v
  {
    if IsBranch(v) then
      var es := Entries(v);
      Parm(name, v, true, None, Some(seq(|es|, i requires 0 <= i < |es| => BuildParm(es[i].0, es[i].1))))
    else
      Parm(name, v, false, Some(Text(v)), None)
  }

  /** The `BevyComponentParm` constructor, with its `push` loop over `for (subparm in parm)`. */
  method NewParm(name: string, v: Value) returns (p: Parm)
    ensures p == BuildParm(name, v)
    decreases v
  {
    if IsBranch(v) {
      var es := Entries(v);
      var subparms: seq<Parm> := [];
      var i := 0;
      while i < |es|
        invariant 0 <= i <= |es|
        invariant subparms == seq(i, j requires 0 <= j < i => BuildParm(es[j].0, es[j].1))
      {
        var sub := NewParm(es[i].0, es[i].1);
        subparms := subparms + [sub];
        i := i + 1;
      }
      p := Parm(name, v, true, None, Some(subparms));
    } else {
      p := Parm(name, v, false, Some(Text(v)), None);
    }
  }

  /**
   * The `parms` of a component built from an optional value: one entry per key of
   * an array or object, a single entry named "" for a truthy scalar, and none when
   * the value is absent or falsy.
   */
  function ParmList(value: Option<Value>): (ps: seq<Parm>)
    ensures value.None? || !Truthy(value.value) ==> ps == []
    ensures value.Some? && IsBranch(value.value) ==>
      |ps| == |Entries(value.value)|
      && forall i :: 0 <= i < |ps| ==>
           ps[i].name == Entries(value.value)[i].0 && ps[i] == BuildParm(ps[i].name, Entries(value.value)[i].1)
    ensures value.Some? && Truthy(value.value) && !IsBranch(value.value) ==>
      ps == [Parm("", value.value, false, Some(Text(value.value)), None)]
  {
    if value.None? || !Truthy(value.value) then []
    else if IsBranch(value.value) then
      var es := Entries(value.value);
      seq(|es|, i requires 0 <= i < |es| => BuildParm(es[i].0, es[i].1))
    else [BuildParm("", value.value)]
  }

  /**
   * What `new BevyComponent(entity, path, value)` builds: a record for that
   * entity and path, named by `ShortName.ShortName(path)`, showing the path as
   * tooltip, with the parameters built from the value.
   */
  function BuildComponent(entity: int, path: string, value: Option<Value>): (c: Component)
    ensures c.entity == entity && c.path == path && c.tooltip == path
    ensures c.parms == ParmList(value)
  {
    Component(entity, path, ShortName.ShortName(path), path, ParmList(value))
  }

  /** The `BevyComponent` constructor, with its `push` loop over `for (name in parms)`. */
  method NewComponent(entity: int, path: string, value: Option<Value>) returns (c: Component)
    ensures c == BuildComponent(entity, path, value)
  {
    var parms: seq<Parm> := [];
    if value.Some? && Truthy(value.value) {
      var v := value.value;
      if IsBranch(v) {
        var es := Entries(v);
        var i := 0;
        while i < |es|
          invariant 0 <= i <= |es|
          invariant parms == seq(i, j requires 0 <= j < i => BuildParm(es[j].0, es[j].1))
        {
          var p := NewParm(es[i].0, es[i].1);
          parms := parms + [p];
          i := i + 1;
        }
      } else {
        var p := NewParm("", v);
        parms := parms + [p];
      }
    }
    c := Component(entity, path, ShortName.ShortName(path), path, parms);
  }

  /** The value reached from `v` by reading the keys of `path` one after the other. */
  function At(v: Value, path: seq<string>): Option<Value>
    decreases |path|
  {
    if path == [] then Some(v)
    else if !IsBranch(v) then None
    else match Find(Entries(v), path[0])
      case None => None
      case Some(child) => At(child, path[1..])
  }

  /** The first node in `ps` with the given name. */
  function FindParm(ps: seq<Parm>, name: string): Option<Parm> {
    if ps == [] then None
    else if ps[0].name == name then Some(ps[0])
    else FindParm(ps[1..], name)
  }

  /** The node reached from `p` by following the names of `path` through `subparms`. */
  function ParmAt(p: Parm, path: seq<string>): Option<Parm>
    decreases |path|
  {
    if path == [] then Some(p)
    else match p.subparms
      case None => None
      case Some(ps) =>
        match FindParm(ps, path[0])
        case None => None
        case Some(child) => ParmAt(child, path[1..])
  }

  lemma {:induction false} FindBuilt(es: seq<(string, Value)>, key: string)
    ensures FindParm(seq(|es|, i requires 0 <= i < |es| => BuildParm(es[i].0, es[i].1)), key)
         == (match Find(es, key) case None => None case Some(w) => Some(BuildParm(key, w)))
  {
    if es != [] {
      var built := seq(|es|, i requires 0 <= i < |es| => BuildParm(es[i].0, es[i].1));
      var tail := es[1..];
      assert built[1..] == seq(|tail|, i requires 0 <= i < |tail| => BuildParm(tail[i].0, tail[i].1));
      FindBuilt(tail, key);
    }
  }

  /** The name a node reached by `path` from a node called `name` carries. */
  function LastKey(name: string, path: seq<string>): string {
    if path == [] then name else path[|path| - 1]
  }

  /** The node built for an optional value. */
  function BuiltAt(key: string, w: Option<Value>): Option<Parm> {
    match w
    case None => None
    case Some(w) => Some(BuildParm(key, w))
  }

  /**
   * The parameter tree mirrors the value: following a key path through the tree
   * reaches a node exactly when the same keys reach a value in the JSON, and that
   * node is the one built from that value under the last key.
   */
  lemma {:induction false} ParmTreeMirrorsValue(name: string, v: Value, path: seq<string>)
    ensures ParmAt(BuildParm(name, v), path) == BuiltAt(LastKey(name, path), At(v, path))
    decreases |path|
  {
    if path != [] && IsBranch(v) {
      ChildOfBuilt(name, v, path[0]);
      assert LastKey(name, path) == LastKey(path[0], path[1..]);
      match Find(Entries(v), path[0])
      case None =>
      case Some(child) =>
        assert ParmAt(BuildParm(name, v), path) == ParmAt(BuildParm(path[0], child), path[1..]);
        ParmTreeMirrorsValue(path[0], child, path[1..]);
    }
  }

  /** One step down the tree: the child named `key` is the node built from the value under `key`. */
  lemma ChildOfBuilt(name: string, v: Value, key: string)
    requires IsBranch(v)
    ensures BuildParm(name, v).subparms.Some?
    ensures FindParm(BuildParm(name, v).subparms.value, key)
         == (match Find(Entries(v), key) case None => None case Some(w) => Some(BuildParm(key, w)))
  {
    FindBuilt(Entries(v), key);
  }

  /** A Transform value: a single branch "translation" with the three leaves x, y and z. */
  lemma TransformExample()
    ensures var xyz := Object([("x", Number(1)), ("y", Number(2)), ("z", Number(3))]);
      BuildComponent(1, "Transform", Some(Object([("translation", xyz)]))).parms
      == [Parm("translation", xyz, true, None, Some([
            Parm("x", Number(1), false, Some("1"), None),
            Parm("y", Number(2), false, Some("2"), None),
            Parm("z", Number(3), false, Some("3"), None)]))]
  {
    var xyz := Object([("x", Number(1)), ("y", Number(2)), ("z", Number(3))]);
    assert IntToString(1) == "1" && IntToString(2) == "2" && IntToString(3) == "3";
    var x := BuildParm("x", Number(1));
    var y := BuildParm("y", Number(2));
    var z := BuildParm("z", Number(3));
    assert x == Parm("x", Number(1), false, Some("1"), None);
    assert y == Parm("y", Number(2), false, Some("2"), None);
    assert z == Parm("z", Number(3), false, Some("3"), None);
    var es := Entries(xyz);
    assert seq(|es|, i requires 0 <= i < |es| => BuildParm(es[i].0, es[i].1)) == [x, y, z];
    var t := BuildParm("translation", xyz);
    assert t == Parm("translation", xyz, true, None, Some([x, y, z]));
    var v := Object([("translation", xyz)]);
    var top := Entries(v);
    assert seq(|top|, i requires 0 <= i < |top| => BuildParm(top[i].0, top[i].1)) == [t];
  }
}
