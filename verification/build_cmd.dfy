/** The `build` command of the Java tool (`src/main/java/wy/commands/BuildCmd.java`):
    choosing the build tasks from the configured platforms, running a
    pipeline of tasks, and underlining the span of a diagnostic. */
module BuildCmd {
  import opened Wrappers
  import Tries
  import C = Configuration

  const BuildPlatforms: Tries.Trie := ["build", "platforms"]

  /** A platform the command environment offers. */
  datatype CommandPlatform = CommandPlatform(name: string, implementation: string)

  /** A build task a platform initialises for a build (the initialisation itself
      is the platform's own code). */
  datatype Task = Task(platform: CommandPlatform)

  /** A configured platform name that is not a string fails its cast. */
  datatype Error = ClassCast

  /** How often `name` is configured. */
  function Count(configured: seq<C.Value>, name: string): nat
    decreases |configured|
  {
    if |configured| == 0 then 0
    else (if configured[0] == C.Str(name) then 1 else 0) + Count(configured[1..], name)
  }

  /** The inner loop of `getBuildPlan`: one task of `p` for every configured
      name equal to its name; every configured value is cast to a string. */
  function TasksOf(p: CommandPlatform, configured: seq<C.Value>): (r: Result<seq<Task>, Error>)
    ensures r.Ok? <==> forall i :: 0 <= i < |configured| ==> configured[i].Str?
    ensures r.Ok? ==> |r.value| == Count(configured, p.name) && forall t :: t in r.value ==> t == Task(p)
    decreases |configured|
  {
    if |configured| == 0 then Ok([])
    else if !configured[0].Str? then Err(ClassCast)
    else
      assert forall i :: 1 <= i < |configured| ==> configured[i] == configured[1..][i - 1];
      var rest :- TasksOf(p, configured[1..]);
      Ok((if configured[0].s == p.name then [Task(p)] else []) + rest)
  }

  /** `getBuildPlan`: for each registered platform in registration order, a
      task for each configured name that equals its name. Configured names
      no platform has are ignored. */
  function GetBuildPlan(registered: seq<CommandPlatform>, configured: seq<C.Value>): (r: Result<seq<Task>, Error>)
    ensures r.Err? <==> |registered| > 0 && exists i :: 0 <= i < |configured| && !configured[i].Str?
    ensures r.Ok? ==> forall t :: t in r.value <==> t.platform in registered && C.Str(t.platform.name) in configured
    decreases |registered|
  {
    if |registered| == 0 then Ok([])
    else
      var here :- TasksOf(registered[0], configured);
      // `here` succeeded, so every configured value is a string
      var rest := GetBuildPlan(registered[1..], configured).value;
      assert forall p :: p in registered <==> p == registered[0] || p in registered[1..] by {
        assert registered == [registered[0]] + registered[1..];
      }
      HereTasks(registered[0], configured, here);
      Ok(here + rest)
  }

  lemma HereTasks(p: CommandPlatform, configured: seq<C.Value>, here: seq<Task>)
    requires |here| == Count(configured, p.name) && forall t :: t in here ==> t == Task(p)
    ensures forall t :: t in here <==> t == Task(p) && C.Str(p.name) in configured
  {
    CountPositive(configured, p.name);
    if |here| > 0 {
      assert here[0] in here;
    }
  }

  lemma {:induction false} CountPositive(configured: seq<C.Value>, name: string)
    ensures Count(configured, name) > 0 <==> C.Str(name) in configured
    decreases |configured|
  {
    if |configured| > 0 {
      CountPositive(configured[1..], name);
      assert configured == [configured[0]] + configured[1..];
    }
  }

  /** Each registered platform contributes one task per configured copy of
      its name, as often as it is registered. */
  lemma {:induction false} PlanMultiplicity(registered: seq<CommandPlatform>, configured: seq<C.Value>, p: CommandPlatform)
    requires GetBuildPlan(registered, configured).Ok?
    ensures multiset(GetBuildPlan(registered, configured).value)[Task(p)] == multiset(registered)[p] * Count(configured, p.name)
    decreases |registered|
  {
    if |registered| > 0 {
      PlanSplit(registered, configured);
      PlanMultiplicity(registered[1..], configured, p);
      MultiplicityStep(registered, TasksOf(registered[0], configured).value,
        GetBuildPlan(registered[1..], configured).value, p, Count(configured, p.name));
    }
  }

  /** The inductive step of `PlanMultiplicity`, on the plan's two parts. */
  lemma MultiplicityStep(registered: seq<CommandPlatform>, here: seq<Task>, rest: seq<Task>, p: CommandPlatform, n: nat)
    requires |registered| > 0
    requires forall x :: x in here ==> x == Task(registered[0])
    requires registered[0] == p ==> |here| == n
    requires multiset(rest)[Task(p)] == multiset(registered[1..])[p] * n
    ensures multiset(here + rest)[Task(p)] == multiset(registered)[p] * n
  {
    var m := multiset(registered[1..])[p];
    UniformCount(here, Task(registered[0]), Task(p));
    assert multiset(here + rest) == multiset(here) + multiset(rest);
    assert registered == [registered[0]] + registered[1..];
    if registered[0] == p {
      assert multiset(registered)[p] == 1 + m;
      assert (1 + m) * n == n + m * n;
    } else {
      assert multiset(registered)[p] == m;
    }
  }

  /** A plan from a non-empty registration is the first platform's tasks
      followed by the plan of the others. */
  lemma PlanSplit(registered: seq<CommandPlatform>, configured: seq<C.Value>)
    requires |registered| > 0 && GetBuildPlan(registered, configured).Ok?
    ensures TasksOf(registered[0], configured).Ok? && GetBuildPlan(registered[1..], configured).Ok?
    ensures GetBuildPlan(registered, configured).value ==
      TasksOf(registered[0], configured).value + GetBuildPlan(registered[1..], configured).value
  {
  }

  /** In a sequence of copies of `q`, `t` occurs all through or not at all. */
  lemma {:induction false} UniformCount(s: seq<Task>, q: Task, t: Task)
    requires forall x :: x in s ==> x == q
    ensures multiset(s)[t] == if t == q then |s| else 0
    decreases |s|
  {
    if |s| > 0 {
      assert s == [s[0]] + s[1..];
      assert s[0] in s;
      assert forall x :: x in s[1..] ==> x in s;
      UniformCount(s[1..], q, t);
    }
  }

  /** Platform `a` is registered no later than platform `b`. */
  predicate RegisteredNoLater(registered: seq<CommandPlatform>, a: CommandPlatform, b: CommandPlatform) {
    exists ki, kj :: 0 <= ki <= kj < |registered| && registered[ki] == a && registered[kj] == b
  }

  /** The plan is in registration order: of two tasks, the earlier one's
      platform is registered no later than the later one's. */
  lemma {:induction false} PlanInRegistrationOrder(registered: seq<CommandPlatform>, configured: seq<C.Value>, i: int, j: int)
    requires GetBuildPlan(registered, configured).Ok?
    requires 0 <= i < j < |GetBuildPlan(registered, configured).value|
    ensures RegisteredNoLater(registered, GetBuildPlan(registered, configured).value[i].platform,
      GetBuildPlan(registered, configured).value[j].platform)
    decreases |registered|
  {
    PlanSplit(registered, configured);
    var here := TasksOf(registered[0], configured).value;
    var rest := GetBuildPlan(registered[1..], configured).value;
    if i >= |here| {
      PlanInRegistrationOrder(registered[1..], configured, i - |here|, j - |here|);
    }
    OrderStep(registered, GetBuildPlan(registered, configured).value, here, rest, i, j);
  }

  /** The inductive step of `PlanInRegistrationOrder`, on the plan's two
      parts. */
  lemma OrderStep(registered: seq<CommandPlatform>, plan: seq<Task>, here: seq<Task>, rest: seq<Task>, i: int, j: int)
    requires |registered| > 0 && plan == here + rest
    requires forall x :: x in here ==> x == Task(registered[0])
    requires forall x :: x in rest ==> x.platform in registered[1..]
    requires 0 <= i < j < |here| + |rest|
    requires i >= |here| ==> RegisteredNoLater(registered[1..], rest[i - |here|].platform, rest[j - |here|].platform)
    ensures RegisteredNoLater(registered, plan[i].platform, plan[j].platform)
  {
    if j < |here| {
      assert here[i] in here && here[j] in here;
      assert registered[0] == plan[i].platform && registered[0] == plan[j].platform;
    } else if i < |here| {
      assert here[i] in here;
      assert rest[j - |here|] in rest;
      var kj :| 0 <= kj < |registered[1..]| && registered[1..][kj] == plan[j].platform;
      assert registered[0] == plan[i].platform && registered[kj + 1] == plan[j].platform;
    } else {
      var ki, kj :| 0 <= ki <= kj < |registered[1..]| &&
        registered[1..][ki] == rest[i - |here|].platform && registered[1..][kj] == rest[j - |here|].platform;
      assert registered[ki + 1] == plan[i].platform && registered[kj + 1] == plan[j].platform;
    }
  }

  /** The plan follows registration order, not configuration order. */
  lemma PlanFollowsRegistration(a: CommandPlatform, b: CommandPlatform)
    requires a.name != b.name
    ensures GetBuildPlan([a, b], [C.Str(b.name), C.Str(a.name)]) == Ok([Task(a), Task(b)])
  {
    var configured := [C.Str(b.name), C.Str(a.name)];
    assert configured[1..] == [C.Str(a.name)];
    assert configured[1..][1..] == [];
    assert [Task(a)] + [] == [Task(a)];
    assert [] + [Task(a)] == [Task(a)];
    assert [Task(b)] + [] == [Task(b)];
    assert TasksOf(a, configured) == Ok([Task(a)]);
    assert TasksOf(b, configured) == Ok([Task(b)]);
    assert [a, b][1..] == [b] && [b][1..] == [];
    assert GetBuildPlan([b], configured) == Ok([Task(b)]);
    assert [Task(a)] + [Task(b)] == [Task(a), Task(b)];
  }

  /** A configured name no registered platform has changes nothing. */
  lemma {:induction false} UnknownNameIgnored(registered: seq<CommandPlatform>, configured: seq<C.Value>, name: string)
    requires forall i :: 0 <= i < |registered| ==> registered[i].name != name
    ensures GetBuildPlan(registered, configured + [C.Str(name)]) == GetBuildPlan(registered, configured)
    decreases |registered|
  {
    if |registered| > 0 {
      TasksOfUnknown(registered[0], configured, name);
      assert forall i :: 0 <= i < |registered[1..]| ==> registered[1..][i] == registered[i + 1];
      UnknownNameIgnored(registered[1..], configured, name);
    }
  }

  lemma {:induction false} TasksOfUnknown(p: CommandPlatform, configured: seq<C.Value>, name: string)
    requires p.name != name
    ensures TasksOf(p, configured + [C.Str(name)]) == TasksOf(p, configured)
    decreases |configured|
  {
    if |configured| == 0 {
      assert [] + [C.Str(name)] == [C.Str(name)];
      assert [C.Str(name)][1..] == [];
    } else {
      assert (configured + [C.Str(name)])[1..] == configured[1..] + [C.Str(name)];
      TasksOfUnknown(p, configured[1..], name);
    }
  }

  /** A task maps a build snapshot to the next snapshot and whether it
      succeeded. */
  type Step<!S> = S -> (S, bool)

  /** `Pipeline`: its tasks and the count of tasks completed so far. */
  datatype Pipeline<!S> = Pipeline(tasks: seq<Step<S>>, completed: nat)

  /** The snapshot after the first `i` tasks ran, each on its predecessor's
      result. */
  function Trace<S>(tasks: seq<Step<S>>, s: S, i: nat): S
    requires i <= |tasks|
  {
    if i == 0 then s else tasks[i - 1](Trace(tasks, s, i - 1)).0
  }

  /** Task `j` succeeds on the snapshot its predecessors left. */
  predicate StepSucceeds<S>(tasks: seq<Step<S>>, s: S, j: nat)
    requires j < |tasks|
  {
    tasks[j](Trace(tasks, s, j)).1
  }

  /** The first `k` tasks all succeed. */
  predicate SucceedsUpTo<S>(tasks: seq<Step<S>>, s: S, k: nat)
    requires k <= |tasks|
  {
    forall j :: 0 <= j < k ==> StepSucceeds(tasks, s, j)
  }

  lemma SucceedsStep<S>(tasks: seq<Step<S>>, s: S, k: nat)
    requires k < |tasks| && SucceedsUpTo(tasks, s, k) && StepSucceeds(tasks, s, k)
    ensures SucceedsUpTo(tasks, s, k + 1)
  {
  }

  /** `Pipeline.apply`: run its tasks in order, threading the snapshot, and
      stop after the first that fails, returning its snapshot. The count of
      completed tasks grows by the number that succeeded. */
  method Apply<S>(p: Pipeline<S>, s: S) returns (s': S, p': Pipeline<S>)
    ensures p'.tasks == p.tasks && p.completed <= p'.completed <= p.completed + |p.tasks|
    ensures var k := p'.completed - p.completed;
      && SucceedsUpTo(p.tasks, s, k)
      && (k < |p.tasks| ==> !StepSucceeds(p.tasks, s, k) && s' == Trace(p.tasks, s, k + 1))
      && (k == |p.tasks| ==> s' == Trace(p.tasks, s, |p.tasks|))
  {
    var tasks := p.tasks;
    var completed := p.completed;
    var i := 0;
    s' := s;
    while i != |tasks|
      invariant 0 <= i <= |tasks|
      invariant completed == p.completed + i
      invariant s' == Trace(tasks, s, i)
      invariant SucceedsUpTo(tasks, s, i)
    {
      var r := tasks[i](s');
      s' := r.0;
      if !r.1 {
        p' := Pipeline(tasks, completed);
        return;
      }
      SucceedsStep(tasks, s, i);
      completed := completed + 1;
      i := i + 1;
    }
    p' := Pipeline(tasks, completed);
  }

  /** `completed()`: every task has been counted. */
  predicate Completed<S>(p: Pipeline<S>) {
    p.completed == |p.tasks|
  }

  /** After one `apply` of a new pipeline, `completed()` holds exactly when
      every task succeeded. */
  lemma CompletedIffAllSucceeded<S>(p: Pipeline<S>, s: S, s': S, p': Pipeline<S>)
    requires p.completed == 0 && p'.tasks == p.tasks && p'.completed <= |p.tasks|
    requires SucceedsUpTo(p.tasks, s, p'.completed)
    requires p'.completed < |p.tasks| ==> !StepSucceeds(p.tasks, s, p'.completed)
    ensures Completed(p') <==> SucceedsUpTo(p.tasks, s, |p.tasks|)
  {
  }

  /** A line of the diagnostic underline reaches past the line's text;
      `printed` holds the lines already written when it failed. */
  datatype HighlightError = IndexOutOfBounds(index: int, printed: seq<string>)

  function Max(a: int, b: int): int { if a >= b then a else b }
  function Min(a: int, b: int): int { if a <= b then a else b }

  /** The whitespace mirroring the first `n` characters: a tab where the text
      has one, a space otherwise. */
  predicate MirrorsIndent(line: string, text: string, n: nat)
    requires n <= |line| && n <= |text|
  {
    forall i :: 0 <= i < n ==> line[i] == (if text[i] == '\t' then '\t' else ' ')
  }

  /** `printLineHighlight`: the line's text, then an underline that mirrors
      the indentation up to the span's start and puts a caret from the start
      to the end, clamped to the last character. A start beyond the text
      fails on reading the character at the text's length, after the text
      itself has been printed. The same code is
      in `Build.java`. */
  method PrintLineHighlight(text: string, spanStart: int, spanEnd: int, offset: int)
    returns (r: Result<seq<string>, HighlightError>)
    ensures var start := spanStart - offset;
      r.Ok? <==> start <= |text|
    ensures var start := spanStart - offset;
      var end := Min(|text| - 1, spanEnd - offset);
      var m := Max(0, start);
      var carets := Max(0, end - start + 1);
      r.Ok? ==> (|r.value| == 2 && r.value[0] == text &&
        |r.value[1]| == m + carets && MirrorsIndent(r.value[1], text, m) &&
        forall i :: m <= i < m + carets ==> r.value[1][i] == '^')
    ensures r.Err? ==> r.error == IndexOutOfBounds(|text|, [text])
  {
    var start := spanStart - offset;
    var end := Min(|text| - 1, spanEnd - offset);
    var str := "";
    var i := 0;
    while i < start
      invariant 0 <= i && (start >= 0 ==> i <= start) && (start < 0 ==> i == 0)
      invariant i <= |text|
      invariant |str| == i && MirrorsIndent(str, text, i)
    {
      if i == |text| {
        return Err(IndexOutOfBounds(i, [text]));
      }
      str := str + (if text[i] == '\t' then "\t" else " ");
      i := i + 1;
    }
    var m := |str|;
    assert m == Max(0, start);
    i := start;
    while i <= end
      invariant start <= i && (start <= end + 1 ==> i <= end + 1)
      invariant start > end ==> i == start
      invariant |str| == m + (i - start)
      invariant MirrorsIndent(str, text, m)
      invariant forall j :: m <= j < |str| ==> str[j] == '^'
    {
      str := str + "^";
      i := i + 1;
    }
    return Ok([text, str]);
  }
}
