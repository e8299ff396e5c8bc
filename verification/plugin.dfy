/** The plugin environment (`src/main/java/wy/lang/Plugin.java`): extension
    points, each a list of extensions, created once per kind and then
    registered into. */
module Plugin {
  import opened Wrappers

  datatype Error = MissingExtensionPoint(kind: string) | ExtensionPointExists(kind: string)

  /** `Environment`: the extension points by kind, each backed by a list
      (`ExtensionPointList`) in registration order. */
  datatype Environment<E> = Environment(points: map<string, seq<E>>)

  function New<E>(): (env: Environment<E>)
    ensures forall kind :: GetAll(env, kind).None?
  {
    Environment(map[])
  }

  /** `getAll`: the kind's extensions; null when the point was never
      created. */
  function GetAll<E>(env: Environment<E>, kind: string): (r: Option<seq<E>>)
    ensures r.Some? <==> kind in env.points
    ensures r.Some? ==> r.value == env.points[kind]
  {
    if kind in env.points then Some(env.points[kind]) else None
  }

  /** `create(kind, ep)`: add a new extension point; a kind that already has
      one is refused and the environment is left as it was. */
  function CreateWith<E>(env: Environment<E>, kind: string, ep: seq<E>): (r: Result<Environment<E>, Error>)
    ensures r.Ok? <==> GetAll(env, kind).None?
    ensures r.Err? ==> r.error == ExtensionPointExists(kind)
    ensures r.Ok? ==> GetAll(r.value, kind) == Some(ep)
    ensures r.Ok? ==> forall k :: k != kind ==> GetAll(r.value, k) == GetAll(env, k)
  {
    if kind in env.points then Err(ExtensionPointExists(kind))
    else Ok(Environment(env.points[kind := ep]))
  }

  /** `create(kind)`: a fresh, empty list-backed extension point. */
  function Create<E>(env: Environment<E>, kind: string): (r: Result<Environment<E>, Error>)
    ensures r.Ok? <==> GetAll(env, kind).None?
    ensures r.Err? ==> r.error == ExtensionPointExists(kind)
    ensures r.Ok? ==> GetAll(r.value, kind) == Some([])
    ensures r.Ok? ==> forall k :: k != kind ==> GetAll(r.value, k) == GetAll(env, k)
  {
    CreateWith(env, kind, [])
  }

  /** `register(kind, e)`: append `e` to the kind's list; a kind without an
      extension point is refused. Other kinds are unchanged. */
  function Register<E>(env: Environment<E>, kind: string, e: E): (r: Result<Environment<E>, Error>)
    ensures r.Ok? <==> GetAll(env, kind).Some?
    ensures r.Err? ==> r.error == MissingExtensionPoint(kind)
    ensures r.Ok? ==> GetAll(r.value, kind) == Some(GetAll(env, kind).value + [e])
    ensures r.Ok? ==> forall k :: k != kind ==> GetAll(r.value, k) == GetAll(env, k)
  {
    if kind !in env.points then Err(MissingExtensionPoint(kind))
    else Ok(Environment(env.points[kind := env.points[kind] + [e]]))
  }

  /** Registering several extensions in turn. */
  function RegisterAll<E>(env: Environment<E>, kind: string, es: seq<E>): (r: Result<Environment<E>, Error>)
    decreases |es|
  {
    if |es| == 0 then Ok(env)
    else
      var env' :- Register(env, kind, es[0]);
      RegisterAll(env', kind, es[1..])
  }

  /** Iterating an extension point gives its extensions in registration
      order, after those it already held. */
  lemma {:induction false} RegistrationOrder<E>(env: Environment<E>, kind: string, es: seq<E>)
    requires kind in env.points
    ensures RegisterAll(env, kind, es).Ok?
    ensures GetAll(RegisterAll(env, kind, es).value, kind) == Some(env.points[kind] + es)
    ensures forall k :: k != kind ==> GetAll(RegisterAll(env, kind, es).value, k) == GetAll(env, k)
    decreases |es|
  {
    if |es| > 0 {
      var env' := Register(env, kind, es[0]).value;
      RegistrationOrder(env', kind, es[1..]);
      assert env.points[kind] + [es[0]] + es[1..] == env.points[kind] + es;
    } else {
      assert env.points[kind] + es == env.points[kind];
    }
  }

  /** A freshly created point lists exactly what was registered into it. */
  lemma CreateThenRegister<E>(env: Environment<E>, kind: string, es: seq<E>)
    requires kind !in env.points
    ensures var env' := Create(env, kind).value;
      RegisterAll(env', kind, es).Ok? && GetAll(RegisterAll(env', kind, es).value, kind) == Some(es)
  {
    var env' := Create(env, kind).value;
    RegistrationOrder(env', kind, es);
    assert [] + es == es;
  }
}
