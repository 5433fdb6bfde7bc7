/** Where the router and the chroot helper meet: the argv that the pipeline
    builds (pkg/actionrouter/operations.go) is the one that parse_command_line
    takes apart (cmd/bb_chroot_helper/config.cc). */
module WrappedCommand {
  import opened RemoteExecution
  import opened Pipeline
  import opened ActionHandling
  import CommandLine

  /** When the outermost prepended arguments are a helper path, flags it accepts
      and a separator, then what the helper executes is the remaining prepends,
      the client's own argv and the appends, whatever words these hold; and the
      flags it reads are the router's own. */
  lemma HelperRunsTheAction(ops: seq<Op>, action: Action, env: Env, cas: Cas, t: seq<State>, r: Action, cas': Cas,
                            helper: string, words: seq<string>, inner: seq<string>)
    requires Run(ops, env, t) && t[0] == Initial(action, cas) && Finished(t[|ops|], action, env, r, cas')
    requires t[|ops|].commandChanged && CommandLine.Spellings(words).Some?
    requires Prepends(ops, env, t, |ops|) == [helper] + words + [CommandLine.END_OF_FLAGS] + inner
    ensures t[0].command.Some? && LoadCommand(cas', r.commandDigest).Some?
    ensures var (argv, original) := (LoadCommand(cas', r.commandDigest).value.arguments, t[0].command.value.arguments);
            && CommandLine.FlagsEnd(argv) < |argv|
            && argv[1..CommandLine.FlagsEnd(argv)] == words
            && argv[CommandLine.FlagsEnd(argv) + 1..] == inner + original + Appends(ops, env, t, |ops|)
  {
    OutputIsSound(ops, action, env, cas, t, r, cas');
    var argv := LoadCommand(cas', r.commandDigest).value.arguments;
    var rest := inner + t[0].command.value.arguments + Appends(ops, env, t, |ops|);
    assert argv == [helper] + words + [CommandLine.END_OF_FLAGS] + rest;
    CommandLine.WrapIsUndone(helper, words, rest);
  }
}
