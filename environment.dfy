/**
 * The chain of scopes.  Every `Environment` object the interpreter ever
 * creates is a frame in an arena (`seq<Frame>`) and is named by its index, so
 * that a closure and the scope that created it can share (alias) one frame.
 * A frame's `enclosing` index is set when the frame is created and never
 * changes; it always names an older frame (see Arena).
 *
 * The pure functions below state what `define`, `get` and `assign` do; the
 * class `Environments` updates the arena in place, as the source's methods
 * update their `values` map, and is proved to agree with them.
 */
module Scopes {
  import opened Wrappers
  import opened Values

  /** One `Environment` object: its `values` map and its `enclosing` environment. */
  datatype Frame = Frame(values: map<string, Value>, enclosing: Option<nat>)

  /** Every frame's parent was created before it, so the enclosing chain is finite. */
  ghost predicate Arena(frames: seq<Frame>)
  {
    forall i | 0 <= i < |frames| :: frames[i].enclosing.Some? ==> frames[i].enclosing.value < i
  }

  /** A value names only existing frames: a function's closure is one of the first `n` frames. */
  predicate ClosureIn(v: Value, n: nat)
  {
    v.LoxFunction? ==> v.closure < n
  }

  /**
   * The arena of a running interpreter: parents are older than their
   * children, and every bound value names only existing frames, as every
   * `enclosing` and every closure of the source is a live object.
   */
  ghost predicate Live(frames: seq<Frame>)
  {
    Arena(frames) &&
    forall i, name | 0 <= i < |frames| && name in frames[i].values :: ClosureIn(frames[i].values[name], |frames|)
  }

  /** The message `get` and `assign` throw for a name no frame on the chain binds. */
  function UndefinedVariable(name: string): string
  {
    "Undefined variable '" + name + "'."
  }

  /** The frame `get`/`assign` act on: the nearest frame on the chain from `env` that binds `name`. */
  function Owner(frames: seq<Frame>, env: nat, name: string): (r: Option<nat>)
    ensures r.Some? ==> r.value <= env && r.value < |frames| && name in frames[r.value].values
    ensures env < |frames| && name in frames[env].values ==> r == Some(env)
    decreases env
  {
    if env >= |frames| then None
    else if name in frames[env].values then Some(env)
    else match frames[env].enclosing
      case None => None
      case Some(p) => if p < env then Owner(frames, p, name) else None
  }

  /** The enclosing chain from `env`, innermost frame first. */
  function Chain(frames: seq<Frame>, env: nat): (r: seq<nat>)
    ensures forall k | 0 <= k < |r| :: r[k] < |frames|
    ensures env < |frames| ==> |r| > 0 && r[0] == env
    decreases env
  {
    if env >= |frames| then []
    else match frames[env].enclosing
      case None => [env]
      case Some(p) => if p < env then [env] + Chain(frames, p) else [env]
  }

  /** `get(name)`: the value in the owner frame, or the "Undefined variable" error. */
  function Get(frames: seq<Frame>, env: nat, name: string): (r: Result<Value>)
    ensures r.Failure? <==> Owner(frames, env, name).None?
    ensures r.Failure? ==> r.error == UndefinedVariable(name)
    ensures r.Success? ==> r.value == frames[Owner(frames, env, name).value].values[name]
  {
    match Owner(frames, env, name)
    case Some(o) => Success(frames[o].values[name])
    case None => Failure(UndefinedVariable(name))
  }

  /** `define(name, value)`: bind `name` in frame `env` only, overwriting a local binding. */
  function Define(frames: seq<Frame>, env: nat, name: string, v: Value): (r: seq<Frame>)
    ensures |r| == |frames|
    ensures forall i | 0 <= i < |frames| && i != env :: r[i] == frames[i]
    ensures env < |frames| ==> r[env] == Frame(frames[env].values[name := v], frames[env].enclosing)
  {
    if env < |frames| then frames[env := Frame(frames[env].values[name := v], frames[env].enclosing)]
    else frames
  }

  /**
   * `assign(name, value)`: overwrite the binding in the owner frame; every
   * other frame, every frame's parent, and every frame's set of names are
   * unchanged.  No owner is the "Undefined variable" error.
   */
  function Assign(frames: seq<Frame>, env: nat, name: string, v: Value): (r: Result<seq<Frame>>)
    ensures r.Failure? <==> Owner(frames, env, name).None?
    ensures r.Failure? ==> r.error == UndefinedVariable(name)
    ensures r.Success? ==> |r.value| == |frames|
    ensures r.Success? ==> var o := Owner(frames, env, name).value;
      r.value[o] == Frame(frames[o].values[name := v], frames[o].enclosing) &&
      forall i | 0 <= i < |frames| && i != o :: r.value[i] == frames[i]
  {
    match Owner(frames, env, name)
    case Some(o) => Success(frames[o := Frame(frames[o].values[name := v], frames[o].enclosing)])
    case None => Failure(UndefinedVariable(name))
  }

  /** The frame `distance` parent links up from `env`, if the chain is that long. */
  function Ancestor(frames: seq<Frame>, env: nat, distance: nat): (r: Option<nat>)
    ensures r.Some? ==> r.value <= env && r.value < |frames|
    decreases distance
  {
    if env >= |frames| then None
    else if distance == 0 then Some(env)
    else match frames[env].enclosing
      case None => None
      case Some(p) => if p < env then Ancestor(frames, p, distance - 1) else None
  }

  /** The message for a distance that walks off the end of the chain. */
  const NoEnclosing := "Cannot read properties of undefined (reading 'values')"

  /**
   * `getAt(distance, name)`, which the source calls but does not define: walk
   * `distance` parent links, then read the local map; a name missing there is
   * `undefined` (what `Map.get` yields).
   */
  function GetAt(frames: seq<Frame>, env: nat, distance: nat, name: string): (r: Result<Value>)
    ensures r.Failure? <==> Ancestor(frames, env, distance).None?
    ensures r.Success? ==> var a := Ancestor(frames, env, distance).value;
      r.value == if name in frames[a].values then frames[a].values[name] else Undefined
  {
    match Ancestor(frames, env, distance)
    case None => Failure(NoEnclosing)
    case Some(a) => Success(if name in frames[a].values then frames[a].values[name] else Undefined)
  }

  /** `new Environment(enclosing)`: a fresh, empty frame. */
  function NewFrame(frames: seq<Frame>, enclosing: Option<nat>): (r: seq<Frame>)
    ensures |r| == |frames| + 1 && r[..|frames|] == frames && r[|frames|] == Frame(map[], enclosing)
  {
    frames + [Frame(map[], enclosing)]
  }

  /** Two arenas with the same parent links and the same names in every frame (values may differ). */
  ghost predicate SameShape(a: seq<Frame>, b: seq<Frame>)
  {
    |a| == |b| &&
    forall i | 0 <= i < |a| :: a[i].enclosing == b[i].enclosing && a[i].values.Keys == b[i].values.Keys
  }

  // ---------------------------------------------------------------------------
  // Properties

  /** After `define(n, v)`, `get(n)` on the same frame yields `v`. */
  lemma DefineThenGet(frames: seq<Frame>, env: nat, name: string, v: Value)
    requires env < |frames|
    ensures Get(Define(frames, env, name, v), env, name) == Success(v)
  {
  }

  /** Frame `i` exists and binds `name` locally. */
  predicate Binds(frames: seq<Frame>, i: nat, name: string)
  {
    i < |frames| && name in frames[i].values
  }

  /** `get` and `assign` find no owner exactly when no frame on the enclosing chain binds the name. */
  lemma {:induction false} OwnerNoneIffUnbound(frames: seq<Frame>, env: nat, name: string)
    ensures Owner(frames, env, name).None? <==>
      forall k | 0 <= k < |Chain(frames, env)| :: !Binds(frames, Chain(frames, env)[k], name)
    decreases env
  {
    var c := Chain(frames, env);
    if env < |frames| && name !in frames[env].values {
      match frames[env].enclosing
      case None =>
        assert c == [env];
      case Some(p) =>
        if p < env {
          OwnerNoneIffUnbound(frames, p, name);
          var c' := Chain(frames, p);
          assert c == [env] + c';
          assert Owner(frames, env, name) == Owner(frames, p, name);
          assert !Binds(frames, c[0], name);
          if forall k | 0 <= k < |c'| :: !Binds(frames, c'[k], name) {
            forall k | 0 <= k < |c|
              ensures !Binds(frames, c[k], name)
            {
              if k > 0 {
                assert c[k] == c'[k - 1];
              }
            }
          } else {
            var k :| 0 <= k < |c'| && Binds(frames, c'[k], name);
            assert c[k + 1] == c'[k];
          }
        } else {
          assert c == [env];
        }
    } else if env < |frames| {
      assert Binds(frames, c[0], name);
    }
  }

  /**
   * `get` returns the binding of the first frame on the enclosing chain that
   * binds the name: an inner binding shadows every outer one.
   */
  lemma {:induction false} OwnerIsFirstOnChain(frames: seq<Frame>, env: nat, name: string)
    requires Owner(frames, env, name).Some?
    ensures exists k | 0 <= k < |Chain(frames, env)| ::
      Chain(frames, env)[k] == Owner(frames, env, name).value &&
      forall j | 0 <= j < k :: !Binds(frames, Chain(frames, env)[j], name)
    decreases env
  {
    var c := Chain(frames, env);
    var o := Owner(frames, env, name).value;
    if name in frames[env].values {
      assert c[0] == o;
    } else {
      match frames[env].enclosing
      case Some(p) =>
        OwnerIsFirstOnChain(frames, p, name);
        var c' := Chain(frames, p);
        assert c == [env] + c';
        var k :| 0 <= k < |c'| && c'[k] == o && forall j | 0 <= j < k :: !Binds(frames, c'[j], name);
        assert c[k + 1] == o;
        forall j | 0 <= j < k + 1
          ensures !Binds(frames, c[j], name)
        {
          if j > 0 {
            assert c[j] == c'[j - 1];
          }
        }
    }
  }

  /** `get` of a name bound nowhere on the chain throws "Undefined variable". */
  lemma GetAbsent(frames: seq<Frame>, env: nat, name: string)
    requires forall k | 0 <= k < |Chain(frames, env)| :: !Binds(frames, Chain(frames, env)[k], name)
    ensures Get(frames, env, name) == Failure(UndefinedVariable(name))
    ensures forall v :: Assign(frames, env, name, v) == Failure(UndefinedVariable(name))
  {
    OwnerNoneIffUnbound(frames, env, name);
  }

  /** The owner of a name depends only on parent links and the names bound, not on the values. */
  lemma {:induction false} OwnerOfSameShape(a: seq<Frame>, b: seq<Frame>, env: nat, name: string)
    requires SameShape(a, b)
    ensures Owner(a, env, name) == Owner(b, env, name)
    decreases env
  {
    if env < |a| && name !in a[env].values {
      assert name !in b[env].values;
      match a[env].enclosing
      case None =>
      case Some(p) =>
        if p < env {
          OwnerOfSameShape(a, b, p, name);
        }
    }
  }

  /** `assign` keeps the shape of the arena: it never inserts a binding or relinks a frame. */
  lemma AssignKeepsShape(frames: seq<Frame>, env: nat, name: string, v: Value)
    requires Assign(frames, env, name, v).Success?
    ensures SameShape(frames, Assign(frames, env, name, v).value)
  {
    var o := Owner(frames, env, name).value;
    assert name in frames[o].values;
  }

  /** After a successful `assign(n, v)`, `get(n)` from the same frame yields `v`. */
  lemma AssignThenGet(frames: seq<Frame>, env: nat, name: string, v: Value)
    requires Assign(frames, env, name, v).Success?
    ensures Get(Assign(frames, env, name, v).value, env, name) == Success(v)
  {
    AssignKeepsShape(frames, env, name, v);
    OwnerOfSameShape(frames, Assign(frames, env, name, v).value, env, name);
  }

  /** `define`, `assign` and `new Environment` keep parents older than their children. */
  lemma ArenaPreserved(frames: seq<Frame>, env: nat, name: string, v: Value)
    requires Arena(frames)
    ensures Arena(Define(frames, env, name, v))
    ensures Assign(frames, env, name, v).Success? ==> Arena(Assign(frames, env, name, v).value)
    ensures env < |frames| ==> Arena(NewFrame(frames, Some(env)))
  {
    var n := NewFrame(frames, Some(env));
    if env < |frames| {
      forall i | 0 <= i < |n| && n[i].enclosing.Some?
        ensures n[i].enclosing.value < i
      {
        if i < |frames| {
          assert n[i] == frames[i];
        }
      }
    }
  }

  /**
   * `define`, `assign` and `new Environment(enclosing)` keep a live arena
   * live, given a value and an enclosing frame that exist.
   */
  lemma LivePreserved(frames: seq<Frame>, env: nat, name: string, v: Value)
    requires Live(frames) && env < |frames| && ClosureIn(v, |frames|)
    ensures Live(Define(frames, env, name, v))
    ensures Assign(frames, env, name, v).Success? ==> Live(Assign(frames, env, name, v).value)
    ensures Live(NewFrame(frames, Some(env))) && Live(NewFrame(frames, None))
  {
    ArenaPreserved(frames, env, name, v);
    var n := NewFrame(frames, None);
    forall i | 0 <= i < |n| && n[i].enclosing.Some?
      ensures n[i].enclosing.value < i
    {
      assert n[i] == frames[i];
    }
    var d := Define(frames, env, name, v);
    forall i, k | 0 <= i < |d| && k in d[i].values
      ensures ClosureIn(d[i].values[k], |d|)
    {
      if i == env && k != name {
        assert k in frames[i].values;
      }
    }
    if Assign(frames, env, name, v).Success? {
      var a := Assign(frames, env, name, v).value;
      var o := Owner(frames, env, name).value;
      forall i, k | 0 <= i < |a| && k in a[i].values
        ensures ClosureIn(a[i].values[k], |a|)
      {
        if i == o && k != name {
          assert k in frames[i].values;
        }
      }
    }
  }

  /** In an arena, the chain is exactly where `getAt` can walk: distance `k` reaches the `k`-th frame of the chain. */
  lemma {:induction false} AncestorOnChain(frames: seq<Frame>, env: nat, distance: nat)
    requires distance < |Chain(frames, env)|
    ensures Ancestor(frames, env, distance) == Some(Chain(frames, env)[distance])
    decreases distance
  {
    var c := Chain(frames, env);
    if distance > 0 {
      match frames[env].enclosing
      case None =>
      case Some(p) =>
        if p < env {
          assert c == [env] + Chain(frames, p);
          AncestorOnChain(frames, p, distance - 1);
        }
    }
  }
}

/** The environments as the source keeps them: objects whose `values` maps `define` and `assign` update in place. */
module Environment {
  import opened Wrappers
  import opened Values
  import opened Scopes

  /** All `Environment` objects, as one arena; frame 0 is `globals`. */
  class Environments {
    var frames: seq<Frame>

    /** Every frame that an index can name exists, and the arena is live. */
    ghost predicate Valid()
      reads this
    {
      0 < |frames| && Live(frames)
    }

    /** `globals = new Environment()`. */
    constructor ()
      ensures frames == [Frame(map[], None)] && Valid()
    {
      frames := [Frame(map[], None)];
    }

    /** `new Environment(enclosing)`, where `enclosing` is an existing environment: the index of the fresh frame. */
    method NewEnvironment(enclosing: Option<nat>) returns (id: nat)
      requires Valid() && (enclosing.Some? ==> enclosing.value < |frames|)
      modifies this
      ensures frames == NewFrame(old(frames), enclosing) && id == |old(frames)|
      ensures Valid()
    {
      if enclosing.Some? {
        LivePreserved(frames, enclosing.value, "", Nil);
      } else {
        LivePreserved(frames, 0, "", Nil);
      }
      id := |frames|;
      frames := frames + [Frame(map[], enclosing)];
    }

    /** `define(name, value)`: `this.values.set(name, value)` on frame `env`. */
    method Define(env: nat, name: string, v: Value)
      requires Valid() && env < |frames| && ClosureIn(v, |frames|)
      modifies this
      ensures frames == Scopes.Define(old(frames), env, name, v)
      ensures Valid()
    {
      LivePreserved(frames, env, name, v);
      var f := frames[env];
      frames := frames[env := Frame(f.values[name := v], f.enclosing)];
    }

    /**
     * `get(name)`: search the local map, then the enclosing chain.  In a live
     * arena every parent link names an older frame, so the search needs no
     * guard and yields a value naming existing frames.
     */
    method Get(env: nat, name: string) returns (r: Result<Value>)
      requires Valid() && env < |frames|
      ensures r == Scopes.Get(frames, env, name)
      ensures r.Success? ==> ClosureIn(r.value, |frames|)
    {
      var cur: nat := env;
      while true
        invariant cur < |frames|
        invariant Owner(frames, cur, name) == Owner(frames, env, name)
        decreases cur
      {
        var f := frames[cur];
        if name in f.values {
          return Success(f.values[name]);
        }
        match f.enclosing
        case None =>
          return Failure(UndefinedVariable(name));
        case Some(p) =>
          assert p < cur;
          cur := p;
      }
    }

    /** `assign(name, value)`: search like `get`, then overwrite the binding where it was found. */
    method Assign(env: nat, name: string, v: Value) returns (error: Option<string>)
      requires Valid() && env < |frames| && ClosureIn(v, |frames|)
      modifies this
      ensures match Scopes.Assign(old(frames), env, name, v)
        case Success(fs) => error.None? && frames == fs
        case Failure(m) => error == Some(m) && frames == old(frames)
      ensures Valid()
    {
      LivePreserved(frames, env, name, v);
      var cur: nat := env;
      while true
        invariant cur < |frames|
        invariant frames == old(frames)
        invariant Owner(frames, cur, name) == Owner(frames, env, name)
        decreases cur
      {
        var f := frames[cur];
        if name in f.values {
          frames := frames[cur := Frame(f.values[name := v], f.enclosing)];
          return None;
        }
        match f.enclosing
        case None =>
          return Some(UndefinedVariable(name));
        case Some(p) =>
          assert p < cur;
          cur := p;
      }
    }

    /**
     * `getAt(distance, name)`: walk `distance` parent links, then read the
     * local map.  Only a chain shorter than `distance` fails.
     */
    method GetAt(env: nat, distance: nat, name: string) returns (r: Result<Value>)
      requires Valid() && env < |frames|
      ensures r == Scopes.GetAt(frames, env, distance, name)
      ensures r.Success? ==> ClosureIn(r.value, |frames|)
    {
      var cur: nat := env;
      var left: nat := distance;
      while left > 0
        invariant cur < |frames|
        invariant Ancestor(frames, cur, left) == Ancestor(frames, env, distance)
        decreases left
      {
        match frames[cur].enclosing
        case None =>
          return Failure(NoEnclosing);
        case Some(p) =>
          assert p < cur;
          cur := p;
          left := left - 1;
      }
      var values := frames[cur].values;
      return Success(if name in values then values[name] else Undefined);
    }
  }
}
