/** The `help` command of the Java tool (`src/main/java/wy/commands/Help.java`):
    the usage summary of all commands, the page for one command, and the
    padding helpers built on `String.format`. */
module Help {
  import opened Wrappers
  import Strings
  import Tries
  import C = Configuration

  /** `SCHEMA`: a single non-negative `width` key. */
  const Schema: C.Schema := C.FromArray([C.BoundInteger(["width"], "fix display width", false, 0)])

  /** `Schema` accepts exactly the key `width`, with non-negative integers. */
  lemma WidthSchema(key: Tries.Trie)
    ensures C.GetDescriptor(Schema, key).Ok? <==> key == ["width"]
    ensures C.GetDescriptor(Schema, ["width"]).Ok? &&
      C.GetDescriptor(Schema, ["width"]).value.kind == C.IntegerKind &&
      (forall i: int :: C.IsValid(C.GetDescriptor(Schema, ["width"]).value.check, C.Int(i)) <==> i >= 0) &&
      (forall i: int :: C.IsValidAsWritten(C.GetDescriptor(Schema, ["width"]).value.check, C.Int(i)) <==> C.IntValue(i) >= 0)
  {
    C.GetDescriptorIffIsKey(Schema, key);
    Tries.LiteralMatches(["width"], key);
    C.GetDescriptorIffIsKey(Schema, ["width"]);
    Tries.LiteralMatches(["width"], ["width"]);
  }

  /** A format string `String.format` rejects. */
  datatype FormatError = IllegalFormat

  function Max(a: int, b: int): int { if a >= b then a else b }

  /** `rightPad`: the format `%1$-<n>s`, which left-justifies `str` in a
      field of `n` characters. A width of zero has no digits to read, and a
      negative width repeats the `-` flag; both are rejected. */
  function RightPad(str: string, n: int): (r: Result<string, FormatError>)
    ensures r.Ok? <==> n >= 1
    ensures r.Ok? ==> (|r.value| == Max(n, |str|) && r.value[..|str|] == str &&
      forall i :: |str| <= i < |r.value| ==> r.value[i] == ' ')
  {
    if n <= 0 then Err(IllegalFormat)
    else Ok(str + Strings.Repeat(' ', if n > |str| then n - |str| else 0))
  }

  /** `leftPad`: the format `%1$<n>s`, which right-justifies `str` in a field
      of `n` characters. A negative `n` reads as the `-` flag and a width of
      `-n`; only a width of zero is rejected. */
  function LeftPad(str: string, n: int): (r: Result<string, FormatError>)
    ensures r.Ok? <==> n != 0
    ensures n > 0 ==> (r.Ok? && |r.value| == Max(n, |str|) &&
      r.value[|r.value| - |str|..] == str &&
      forall i :: 0 <= i < |r.value| - |str| ==> r.value[i] == ' ')
  {
    if n == 0 then Err(IllegalFormat)
    else if n > 0 then Ok(Strings.Repeat(' ', if n > |str| then n - |str| else 0) + str)
    else Ok(str + Strings.Repeat(' ', if -n > |str| then -n - |str| else 0))
  }

  /** A negative width to `leftPad` is `rightPad` with the positive width. */
  lemma LeftPadNegative(str: string, n: int)
    requires n >= 1
    ensures LeftPad(str, -n) == RightPad(str, n)
  {
  }

  /** When the string fits, both paddings give exactly `n` characters and
      differ only in where the spaces go. */
  lemma {:induction false} PadsFit(str: string, n: int)
    requires 1 <= n && |str| <= n
    ensures |RightPad(str, n).value| == n && |LeftPad(str, n).value| == n
    ensures RightPad(str, n).value == str + Strings.Repeat(' ', n - |str|)
    ensures LeftPad(str, n).value == Strings.Repeat(' ', n - |str|) + str
  {
    var r := RightPad(str, n).value;
    var l := LeftPad(str, n).value;
    assert r[..|str|] == str;
    assert r[|str|..] == Strings.Repeat(' ', n - |str|);
    assert r == r[..|str|] + r[|str|..];
    assert l[n - |str|..] == str;
    assert l[..n - |str|] == Strings.Repeat(' ', n - |str|);
    assert l == l[..n - |str|] + l[n - |str|..];
  }

  /** A command option: its name, the description of its argument (absent
      for a flag) and what it does. */
  datatype OptionDescriptor = OptionDescriptor(name: string, argument: Option<string>, description: string)

  /** A command: its name, description, options and subcommands. */
  datatype CommandDescriptor = CommandDescriptor(
    name: string, description: string,
    options: seq<OptionDescriptor>, commands: seq<CommandDescriptor>)

  /** `determineCommandNameWidth`: the length of the longest command name,
      zero when there are no commands. */
  function CommandNameWidth(commands: seq<CommandDescriptor>): (w: nat)
    ensures forall i :: 0 <= i < |commands| ==> |commands[i].name| <= w
    ensures |commands| == 0 ==> w == 0
    ensures |commands| > 0 ==> exists i :: 0 <= i < |commands| && |commands[i].name| == w
    decreases |commands|
  {
    if |commands| == 0 then 0
    else
      var rest := CommandNameWidth(commands[1..]);
      assert forall i :: 1 <= i < |commands| ==> commands[i] == commands[1..][i - 1];
      if |commands[0].name| >= rest then |commands[0].name| else rest
  }

  /** One line of the command summary: the name padded to `width`, then the
      description. */
  function CommandLine(d: CommandDescriptor, width: int): Result<string, FormatError> {
    var padded :- RightPad(d.name, width);
    Ok("  " + padded + "   " + d.description)
  }

  function CommandLines(commands: seq<CommandDescriptor>, width: int): (r: Result<seq<string>, FormatError>)
    ensures r.Ok? <==> |commands| == 0 || width >= 1
    ensures r.Ok? ==> (|r.value| == |commands| &&
      forall i :: 0 <= i < |commands| ==> CommandLine(commands[i], width) == Ok(r.value[i]))
    decreases |commands|
  {
    if |commands| == 0 then Ok([])
    else
      var line :- CommandLine(commands[0], width);
      // the first line was padded, so the width is positive
      var rest := CommandLines(commands[1..], width).value;
      assert forall i :: 1 <= i < |commands| ==> commands[i] == commands[1..][i - 1];
      Ok([line] + rest)
  }

  const UsageHeader: seq<string> := ["usage: wy [--verbose] command [<options>] [<args>]", "", "Commands:"]
  const UsageFooter: seq<string> := ["", "Run `wy help COMMAND` for more information on a command"]

  /** `printUsage`: the usage line, one summary line per command, and a
      hint at `wy help COMMAND`. The padding fails when every command
      name is empty, since the width is then zero. */
  function PrintUsage(commands: seq<CommandDescriptor>): (r: Result<seq<string>, FormatError>)
    ensures r.Ok? <==> |commands| == 0 || exists i :: 0 <= i < |commands| && |commands[i].name| > 0
    ensures r.Ok? ==> (|r.value| == |commands| + 5 &&
      r.value[..3] == UsageHeader && r.value[|commands| + 3..] == UsageFooter)
  {
    var lines :- CommandLines(commands, CommandNameWidth(commands));
    Ok(UsageHeader + lines + UsageFooter)
  }

  /** Every summary line starts with two spaces and the command's name, and
      the descriptions all start in the same column, three spaces past the
      longest name. */
  lemma UsageAligned(commands: seq<CommandDescriptor>, i: nat)
    requires PrintUsage(commands).Ok? && i < |commands|
    ensures var line := PrintUsage(commands).value[3 + i];
      var column := 2 + CommandNameWidth(commands) + 3;
      && |line| == column + |commands[i].description|
      && line[..2] == "  " && line[2..2 + |commands[i].name|] == commands[i].name
      && line[column..] == commands[i].description
  {
    var w := CommandNameWidth(commands);
    var lines := CommandLines(commands, w).value;
    assert PrintUsage(commands).value[3 + i] == lines[i];
    CommandLineLayout(commands[i], w);
  }

  /** A summary line for a name that fits the width. */
  lemma CommandLineLayout(d: CommandDescriptor, w: int)
    requires 1 <= w && |d.name| <= w
    ensures var line := CommandLine(d, w).value;
      && |line| == 2 + w + 3 + |d.description|
      && line[..2] == "  " && line[2..2 + |d.name|] == d.name
      && line[2 + w + 3..] == d.description
  {
    var padded := RightPad(d.name, w).value;
    assert |padded| == w;
    var line := CommandLine(d, w).value;
    assert line == "  " + padded + "   " + d.description;
    assert line[2..2 + |d.name|] == padded[..|d.name|];
  }

  /** The first line of an option on a command's page: the option's name
      after `--`, and `=` with the argument's description when there is a
      non-empty one. */
  function OptionLine(o: OptionDescriptor): string {
    "\t--" + o.name + (if o.argument.Some? && o.argument.value != "" then "=" + o.argument.value else "")
  }

  /** The argument is shown exactly when it is present and non-empty. */
  lemma OptionArgumentShown(o: OptionDescriptor)
    ensures o.argument.Some? && o.argument.value != "" ==> OptionLine(o) == "\t--" + o.name + "=" + o.argument.value
    ensures !(o.argument.Some? && o.argument.value != "") ==> OptionLine(o) == "\t--" + o.name
    ensures |OptionLine(o)| > 3 + |o.name| <==> o.argument.Some? && o.argument.value != ""
  {
  }

  function OptionLines(options: seq<OptionDescriptor>): (r: seq<string>)
    ensures |r| == 2 * |options|
    ensures forall i :: 0 <= i < |options| ==>
      r[2 * i] == OptionLine(options[i]) && r[2 * i + 1] == "\t\t" + options[i].description
    decreases |options|
  {
    if |options| == 0 then []
    else
      var rest := OptionLines(options[1..]);
      assert forall i :: 1 <= i < |options| ==> options[i] == options[1..][i - 1];
      [OptionLine(options[0]), "\t\t" + options[0].description] + rest
  }

  function SubcommandLines(commands: seq<CommandDescriptor>): (r: seq<string>)
    ensures |r| == 2 * |commands|
    ensures forall i :: 0 <= i < |commands| ==>
      r[2 * i] == "\t" + commands[i].name && r[2 * i + 1] == "\t\t" + commands[i].description
    decreases |commands|
  {
    if |commands| == 0 then []
    else
      var rest := SubcommandLines(commands[1..]);
      assert forall i :: 1 <= i < |commands| ==> commands[i] == commands[1..][i - 1];
      ["\t" + commands[0].name, "\t\t" + commands[0].description] + rest
  }

  /** `print`: the page for one command, with its name, description, each
      option on two lines and each direct subcommand on two lines. */
  function Print(d: CommandDescriptor): (r: seq<string>)
    ensures var n := |d.options|; var m := |d.commands|;
      && |r| == 10 + 2 * n + 2 * m
      && r[..7] == ["NAME", "\t" + d.name, "", "DESCRIPTION", "\t" + d.description, "", "OPTIONS"]
      && (forall i :: 0 <= i < n ==>
            r[7 + 2 * i] == OptionLine(d.options[i]) && r[8 + 2 * i] == "\t\t" + d.options[i].description)
      && r[7 + 2 * n..9 + 2 * n] == ["", "SUBCOMMANDS"]
      && (forall i :: 0 <= i < m ==>
            r[9 + 2 * n + 2 * i] == "\t" + d.commands[i].name &&
            r[10 + 2 * n + 2 * i] == "\t\t" + d.commands[i].description)
      && r[|r| - 1] == ""
  {
    var head := ["NAME", "\t" + d.name, "", "DESCRIPTION", "\t" + d.description, "", "OPTIONS"];
    var opts := OptionLines(d.options);
    var subs := SubcommandLines(d.commands);
    var r := head + opts + ["", "SUBCOMMANDS"] + subs + [""];
    assert r[7 + 2 * |d.options|..9 + 2 * |d.options|] == ["", "SUBCOMMANDS"];
    r
  }
}
