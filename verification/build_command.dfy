/** The experimental `build` command of the Java tool
    (`src/main/java/wy/commands/Build.java`): every build platform of the
    environment initialises one task, and those tasks run in order until one
    fails. */
module BuildCommand {
  /** `determineBuildPipeline`: all build platforms of the environment, in
      the order the environment lists them; no platform is filtered out. */
  function DetermineBuildPipeline<P>(buildPlatforms: seq<P>): seq<P> {
    buildPlatforms
  }

  /** `initialisePipeline`: one task per platform, in platform order. */
  function InitialisePipeline<P, T>(platforms: seq<P>, initialise: P -> T): (r: seq<T>)
    ensures |r| == |platforms|
    ensures forall i :: 0 <= i < |platforms| ==> r[i] == initialise(platforms[i])
    decreases |platforms|
  {
    if |platforms| == 0 then []
    else [initialise(platforms[0])] + InitialisePipeline(platforms[1..], initialise)
  }

  /** `execute`: run a task for each platform in order. The command
      succeeds exactly when every task succeeds; otherwise it stops at the
      first failing task, and `ran` counts how many tasks were applied. */
  method Execute<P, T>(buildPlatforms: seq<P>, initialise: P -> T, run: T -> bool)
    returns (ok: bool, ran: nat)
    ensures ran <= |buildPlatforms|
    ensures ok <==> forall j :: 0 <= j < |buildPlatforms| ==> run(initialise(buildPlatforms[j]))
    ensures ok ==> ran == |buildPlatforms|
    ensures !ok ==> (1 <= ran && !run(initialise(buildPlatforms[ran - 1])) &&
      forall j :: 0 <= j < ran - 1 ==> run(initialise(buildPlatforms[j])))
  {
    var platforms := DetermineBuildPipeline(buildPlatforms);
    var tasks := InitialisePipeline(platforms, initialise);
    var i := 0;
    while i < |tasks|
      invariant 0 <= i <= |tasks|
      invariant forall j :: 0 <= j < i ==> run(initialise(buildPlatforms[j]))
    {
      if !run(tasks[i]) {
        return false, i + 1;
      }
      i := i + 1;
    }
    return true, |tasks|;
  }
}
