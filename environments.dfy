/** Environments: a map from symbol names to values. The evaluator keeps all
    environment objects in a store (a sequence of frames indexed by EnvId) so
    that a closure can hold its environment by reference, as the Java objects
    do; the class Environment below is the same object seen imperatively, and
    both are specified by the frame-level functions Lookup, Extend and Set. */
module Environments {
  import opened Results
  import opened Nodes

  /** The `variables` map of one Environment object. */
  type Frame = map<string, Node>

  /** Every Environment object that exists, by reference (EnvId). */
  type Store = seq<Frame>

  // ---- the operations on one frame -----------------------------------------

  /** Environment.lookup: the bound value (a copy, which for immutable nodes is
      the value itself), or a LispException for an unbound name. */
  function Lookup(f: Frame, key: string): (r: Result<Node>)
    ensures r.Ok? <==> key in f
    ensures r.Ok? ==> r.value == f[key]
    ensures r.Err? ==> r.error == LispError(UnboundSymbol(key))
  {
    if key in f then Ok(f[key]) else Err(LispError(UnboundSymbol(key)))
  }

  /** Environment.extend: a new map with every parent binding, then every new
      binding put over it, so a new binding wins on a clash. */
  function Extend(parent: Frame, vars: Frame): (r: Frame)
    ensures r.Keys == parent.Keys + vars.Keys
    ensures forall k :: k in vars ==> r[k] == vars[k]
    ensures forall k :: k in parent && k !in vars ==> r[k] == parent[k]
  {
    parent + vars
  }

  /** Environment.set: adds a binding for an unbound name; a bound name raises
      a LispException (definitions are write-once). */
  function Set(f: Frame, key: string, value: Node): (r: Result<Frame>)
    ensures r.Ok? <==> key !in f
    ensures r.Ok? ==> r.value.Keys == f.Keys + {key} && r.value[key] == value
    ensures r.Ok? ==> forall k :: k in f ==> r.value[k] == f[k]
    ensures r.Err? ==> r.error == LispError(AlreadyDefined(key))
  {
    if key in f then Err(LispError(AlreadyDefined(key))) else Ok(f[key := value])
  }

  /** A later frame still holds every binding of an earlier one, unchanged. */
  predicate FrameGrows(f: Frame, g: Frame)
  {
    forall k :: k in f ==> k in g && g[k] == f[k]
  }

  /** No environment disappears and no binding is removed or rebound. Stated
      frame by frame (GrowsFrom) so that it is unfolded only where a proof
      asks for it; GrowsAt and GrowsIntro give the quantified reading. */
  predicate Grows(st: Store, st': Store)
  {
    st == st' || (|st| <= |st'| && GrowsFrom(st, st', 0))
  }

  /** Every frame from index i on still holds its bindings in st'. */
  predicate GrowsFrom(st: Store, st': Store, i: nat)
    requires |st| <= |st'|
    decreases |st| - i
  {
    i >= |st| || (FrameGrows(st[i], st'[i]) && GrowsFrom(st, st', i + 1))
  }

  lemma {:induction false} GrowsFromAt(st: Store, st': Store, i: nat, e: nat)
    requires |st| <= |st'| && GrowsFrom(st, st', i) && i <= e < |st|
    ensures FrameGrows(st[e], st'[e])
    decreases e - i
  {
    if i < e {
      GrowsFromAt(st, st', i + 1, e);
    }
  }

  lemma {:induction false} GrowsFromIntro(st: Store, st': Store, i: nat)
    requires |st| <= |st'| && forall e :: i <= e < |st| ==> FrameGrows(st[e], st'[e])
    ensures GrowsFrom(st, st', i)
    decreases |st| - i
  {
    if i < |st| {
      GrowsFromIntro(st, st', i + 1);
    }
  }

  /** Grows keeps each frame's bindings. */
  lemma GrowsAt(st: Store, st': Store, e: nat)
    requires Grows(st, st') && e < |st|
    ensures FrameGrows(st[e], st'[e])
  {
    if st != st' {
      GrowsFromAt(st, st', 0, e);
    }
  }

  lemma GrowsIntro(st: Store, st': Store)
    requires |st| <= |st'| && forall e :: 0 <= e < |st| ==> FrameGrows(st[e], st'[e])
    ensures Grows(st, st')
  {
    GrowsFromIntro(st, st', 0);
  }

  lemma GrowsTransitive(a: Store, b: Store, c: Store)
    requires Grows(a, b) && Grows(b, c)
    ensures Grows(a, c)
  {
    assert |a| <= |b| <= |c|;
    forall e | 0 <= e < |a|
      ensures FrameGrows(a[e], c[e])
    {
      GrowsAt(a, b, e);
      GrowsAt(b, c, e);
    }
    GrowsIntro(a, c);
  }

  // ---- the same operations on the store --------------------------------------

  /** `env.set(key, value)` on the environment object `env`. */
  function Define(st: Store, env: EnvId, key: string, value: Node): (r: Result<Store>)
    requires env < |st|
    ensures r.Ok? <==> key !in st[env]
    ensures r.Ok? ==> |r.value| == |st| && Grows(st, r.value)
    ensures r.Ok? ==> r.value[env] == st[env][key := value]
    ensures r.Ok? ==> forall e :: 0 <= e < |st| && e != env ==> r.value[e] == st[e]
    ensures r.Err? ==> r.error == LispError(AlreadyDefined(key))
  {
    match Set(st[env], key, value)
    case Err(e) => Err(e)
    case Ok(f) =>
      GrowsIntro(st, st[env := f]);
      Ok(st[env := f])
  }

  /** `env.extend(vars)`: a fresh environment object, appended to the store. */
  function ExtendEnv(st: Store, env: EnvId, vars: Frame): (r: (Store, EnvId))
    requires env < |st|
    ensures r.1 == |st| && |r.0| == |st| + 1 && r.0[..|st|] == st
    ensures r.0[r.1] == Extend(st[env], vars)
    ensures Grows(st, r.0)
  {
    GrowsIntro(st, st + [Extend(st[env], vars)]);
    (st + [Extend(st[env], vars)], |st|)
  }

  // ---- the Java object --------------------------------------------------------

  /** One Environment object: a mutable map that `set` updates in place. */
  class Environment {
    var variables: Frame

    /** `new Environment()` / `Environment.env()`: no bindings. */
    constructor ()
      ensures variables == map[]
    {
      variables := map[];
    }

    /** `new Environment(variables)` / `Environment.env(variables)`. */
    constructor FromMap(vars: Frame)
      ensures variables == vars
    {
      variables := vars;
    }

    method LookupKey(key: string) returns (r: Result<Node>)
      ensures r == Lookup(variables, key)
    {
      if key in variables {
        r := Ok(variables[key]);
      } else {
        r := Err(LispError(UnboundSymbol(key)));
      }
    }

    /** Copies every parent binding into a new map entry by entry, puts the
        new bindings over them, and wraps the map in a new object; this
        object is not changed. */
    method ExtendWith(vars: Frame) returns (e: Environment)
      ensures fresh(e) && e.variables == Extend(variables, vars)
    {
      var newVariables: Frame := map[];
      var todo := variables.Keys;
      while todo != {}
        invariant todo <= variables.Keys
        invariant newVariables.Keys == variables.Keys - todo
        invariant forall k :: k in newVariables ==> newVariables[k] == variables[k]
        decreases todo
      {
        var k :| k in todo;
        newVariables := newVariables[k := variables[k]];
        todo := todo - {k};
      }
      assert newVariables == variables;
      newVariables := newVariables + vars;
      e := new Environment.FromMap(newVariables);
    }

    /** `set`: binds an unbound name in place; on a bound name it reports
        AlreadyDefined and changes nothing. */
    method SetKey(key: string, value: Node) returns (r: Result<Frame>)
      modifies this
      ensures r == Set(old(variables), key, value)
      ensures r.Ok? ==> variables == r.value
      ensures r.Err? ==> variables == old(variables)
    {
      if key in variables {
        r := Err(LispError(AlreadyDefined(key)));
      } else {
        variables := variables[key := value];
        r := Ok(variables);
      }
    }

    /** Environment.equals: equal binding maps (reference equality implies it). */
    predicate Equals(that: Environment)
      reads this, that
    {
      variables == that.variables
    }
  }
}
