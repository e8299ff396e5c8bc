/** The registry of platforms by their own names (`src/platforms/mod.rs`). A
    platform is any value with a name; `implementation` tells apart values
    that share one. */
module Platforms {
  import opened Wrappers

  datatype Platform = Platform(name: string, implementation: string)

  /** `WHILEY_PLATFORM` of `src/platforms/whiley.rs`. */
  const WhileyPlatform: Platform := Platform("whiley", "WhileyPlatform")

  datatype PlatformRegistry = PlatformRegistry(entries: map<string, Platform>)

  /** `PlatformRegistry::new`: no platform is known. */
  function New(): (r: PlatformRegistry)
    ensures forall n :: Get(r, n).None?
  {
    PlatformRegistry(map[])
  }

  /** `PlatformRegistry::register`: keyed by the platform's own name, a later
      platform with that name replacing an earlier one; other names are
      unaffected. */
  function Register(r: PlatformRegistry, p: Platform): (r': PlatformRegistry)
    ensures Get(r', p.name) == Some(p)
    ensures forall m :: m != p.name ==> Get(r', m) == Get(r, m)
  {
    PlatformRegistry(r.entries[p.name := p])
  }

  /** `PlatformRegistry::get`. */
  function Get(r: PlatformRegistry, n: string): (p: Option<Platform>)
    ensures p.Some? <==> n in r.entries
    ensures p.Some? ==> p.value == r.entries[n]
  {
    if n in r.entries then Some(r.entries[n]) else None
  }

  /** Every registered platform is found under its own name. */
  predicate Keyed(r: PlatformRegistry) {
    forall n :: n in r.entries ==> r.entries[n].name == n
  }

  /** `new` and `register` only ever build registries keyed by name. */
  lemma RegisterKeyed(r: PlatformRegistry, p: Platform)
    requires Keyed(r)
    ensures Keyed(Register(r, p)) && Keyed(New())
  {
  }

  /** Registering the Whiley platform makes it known as `whiley`. */
  lemma RegisterWhiley()
    ensures Get(Register(New(), WhileyPlatform), "whiley") == Some(WhileyPlatform)
  {
  }
}
