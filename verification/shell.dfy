/** Command execution, replaced by an oracle. Every external command the core issues goes
    through `Exec`: the environment answers the n-th command of the run, and the log of
    issued commands is threaded through the model as state. */
module Shell {
  import opened Optional
  import opened Seqs
  import opened Types

  /** What a child process reports: whether it exited successfully, and its output. */
  datatype Response = Response(ok: bool, stdout: string, stderr: string)

  /** The machine: its answer to the command issued at a given position of the run. */
  type Env = (nat, string) -> Response

  /** The message `runCommand` rejects with when the command fails. */
  function FailureText(command: string, r: Response): string {
    "Command failed: " + command + "\n" + r.stderr
  }

  /** `runCommand` inside `try`/`catch`, as every apply step writes it: one command, then
      `okMessage` on success, or `failMessage` with the error text on failure. */
  function Attempt(env: Env, log: seq<string>, command: string, okMessage: string, failMessage: string)
    : (out: (ApplyResult, seq<string>))
    ensures out.1 == log + [command]
    ensures out.0.success == env(|log|, command).ok
    ensures out.0.success ==> out.0 == ApplyResult(true, okMessage, None)
    ensures !out.0.success ==> out.0 == ApplyResult(false, failMessage, Some(FailureText(command, env(|log|, command))))
  {
    var resp := env(|log|, command);
    if resp.ok then (ApplyResult(true, okMessage, None), log + [command])
    else (ApplyResult(false, failMessage, Some(FailureText(command, resp))), log + [command])
  }

  /** Issue `command` after those in `log`. */
  function Exec(env: Env, log: seq<string>, command: string): (out: (Response, seq<string>))
    ensures out.0 == env(|log|, command)
    ensures out.1 == log + [command]
  {
    (env(|log|, command), log + [command])
  }

  /** One command per entry of `todo`, in order, keeping one result per command whatever
      earlier commands answered: the `k`-th result is built from the `k`-th entry and the
      answer to the `k`-th command issued. */
  function RunAll<E, R>(env: Env, todo: seq<E>, command: E -> string, outcome: (E, Response) -> R, log: seq<string>)
    : (b: (seq<R>, seq<string>))
    ensures |b.0| == |todo|
    ensures b.1 == log + MapSeq(todo, command)
    ensures forall k :: 0 <= k < |todo| ==> b.0[k] == outcome(todo[k], env(|log| + k, command(todo[k])))
    decreases |todo|
  {
    if |todo| == 0 then ([], log)
    else
      var c := command(todo[0]);
      var rest := RunAll(env, todo[1..], command, outcome, log + [c]);
      assert MapSeq(todo, command) == [c] + MapSeq(todo[1..], command);
      ([outcome(todo[0], env(|log|, c))] + rest.0, rest.1)
  }

  /** The loop the orchestrator and the managers write again and again: walk `entries` in
      order, skip those `dispatch` rejects and issue a command for each of the others. It
      does exactly what `RunAll` does on the entries `dispatch` accepts. */
  function RunEach<E, R>(env: Env, entries: seq<E>, dispatch: E -> bool, command: E -> string,
                         outcome: (E, Response) -> R, log: seq<string>): (b: (seq<R>, seq<string>))
    ensures b == RunAll(env, Filter(entries, dispatch), command, outcome, log)
    decreases |entries|
  {
    if |entries| == 0 then ([], log)
    else
      var e, tail := entries[0], Filter(entries[1..], dispatch);
      if !dispatch(e) then
        assert Filter(entries, dispatch) == tail;
        RunEach(env, entries[1..], dispatch, command, outcome, log)
      else
        var c := command(e);
        var rest := RunEach(env, entries[1..], dispatch, command, outcome, log + [c]);
        assert Filter(entries, dispatch) == [e] + tail;
        assert ([e] + tail)[1..] == tail;
        ([outcome(e, env(|log|, c))] + rest.0, rest.1)
  }

  // ---------------------------------------------------------------------------
  // Reading the state of the desired entries
  // ---------------------------------------------------------------------------

  /** The collection loop of the git and macOS managers' `getCurrentState`: one read command
      per desired item, in order, through `runCommandSafe` (which never rejects; a failed
      read reports the output it had, usually none). A read that prints something stores
      `parse` of its output under the item's key; a silent read stores nothing. */
  function ReadEach<S, V>(
    env: Env,
    log: seq<string>,
    items: seq<S>,
    command: S -> string,
    key: S -> string,
    parse: string -> V,
    state: map<string, V>): (out: (map<string, V>, seq<string>))
    ensures out.1 == log + MapSeq(items, command)
    decreases |items|
  {
    if |items| == 0 then (state, log)
    else
      var c := command(items[0]);
      var rest := MapSeq(items[1..], command);
      assert MapSeq(items, command) == [c] + rest;
      assert (log + [c]) + rest == log + ([c] + rest);
      ReadEach(env, log + [c], items[1..], command, key, parse, Store(state, key(items[0]), parse, env(|log|, c).stdout))
  }

  /** One read's effect on the map. */
  function Store<V>(state: map<string, V>, k: string, parse: string -> V, stdout: string): (r: map<string, V>)
    ensures stdout != "" ==> r == state[k := parse(stdout)]
    ensures stdout == "" ==> r == state
  {
    if stdout != "" then state[k := parse(stdout)] else state
  }

  /** The output the read of `items[i]` got. */
  function ReadOutput<S>(env: Env, log: seq<string>, items: seq<S>, command: S -> string, i: nat): string
    requires i < |items|
  {
    env(|log| + i, command(items[i])).stdout
  }

  /** Only keys already present or belonging to a read item end up in the map. */
  lemma {:induction false} ReadEachKeys<S, V>(env: Env, log: seq<string>, items: seq<S>, command: S -> string,
                                             key: S -> string, parse: string -> V, state: map<string, V>)
    ensures forall k :: k in ReadEach(env, log, items, command, key, parse, state).0 ==>
      k in state || exists i :: 0 <= i < |items| && key(items[i]) == k
    decreases |items|
  {
    if |items| > 0 {
      var c := command(items[0]);
      var state1 := Store(state, key(items[0]), parse, env(|log|, c).stdout);
      ReadEachKeys(env, log + [c], items[1..], command, key, parse, state1);
      forall k | k in ReadEach(env, log, items, command, key, parse, state).0
        ensures k in state || exists i :: 0 <= i < |items| && key(items[i]) == k
      {
        if k !in state && k != key(items[0]) {
          var i :| 0 <= i < |items[1..]| && key(items[1..][i]) == k;
          assert key(items[i + 1]) == k;
        }
      }
    }
  }

  /** The last item with a given key decides its value, when its read printed something. */
  lemma {:induction false} ReadEachStores<S, V>(env: Env, log: seq<string>, items: seq<S>, command: S -> string,
                                               key: S -> string, parse: string -> V, state: map<string, V>, i: nat)
    requires i < |items|
    requires forall j :: i < j < |items| ==> key(items[j]) != key(items[i])
    requires ReadOutput(env, log, items, command, i) != ""
    ensures key(items[i]) in ReadEach(env, log, items, command, key, parse, state).0
    ensures ReadEach(env, log, items, command, key, parse, state).0[key(items[i])]
      == parse(ReadOutput(env, log, items, command, i))
    decreases |items|
  {
    var c := command(items[0]);
    var state1 := Store(state, key(items[0]), parse, env(|log|, c).stdout);
    if i == 0 {
      ReadEachUntouched(env, log + [c], items[1..], command, key, parse, state1, key(items[0]));
    } else {
      assert ReadOutput(env, log + [c], items[1..], command, i - 1) == ReadOutput(env, log, items, command, i);
      ReadEachStores(env, log + [c], items[1..], command, key, parse, state1, i - 1);
    }
  }

  /** A key no item names keeps its presence and value. */
  lemma {:induction false} ReadEachUntouched<S, V>(env: Env, log: seq<string>, items: seq<S>, command: S -> string,
                                                  key: S -> string, parse: string -> V, state: map<string, V>, k: string)
    requires forall j :: 0 <= j < |items| ==> key(items[j]) != k
    ensures k in ReadEach(env, log, items, command, key, parse, state).0 <==> k in state
    ensures k in state ==> ReadEach(env, log, items, command, key, parse, state).0[k] == state[k]
    decreases |items|
  {
    if |items| > 0 {
      var c := command(items[0]);
      var state1 := Store(state, key(items[0]), parse, env(|log|, c).stdout);
      ReadEachUntouched(env, log + [c], items[1..], command, key, parse, state1, k);
    }
  }

  /** A key read only once, and silently, stays absent. */
  lemma {:induction false} ReadEachSkipsSilent<S, V>(env: Env, log: seq<string>, items: seq<S>, command: S -> string,
                                                    key: S -> string, parse: string -> V, state: map<string, V>, i: nat)
    requires i < |items|
    requires forall j :: 0 <= j < |items| && j != i ==> key(items[j]) != key(items[i])
    requires ReadOutput(env, log, items, command, i) == ""
    requires key(items[i]) !in state
    ensures key(items[i]) !in ReadEach(env, log, items, command, key, parse, state).0
    decreases |items|
  {
    var c := command(items[0]);
    var state1 := Store(state, key(items[0]), parse, env(|log|, c).stdout);
    if i == 0 {
      ReadEachUntouched(env, log + [c], items[1..], command, key, parse, state1, key(items[0]));
    } else {
      assert ReadOutput(env, log + [c], items[1..], command, i - 1) == ReadOutput(env, log, items, command, i);
      ReadEachSkipsSilent(env, log + [c], items[1..], command, key, parse, state1, i - 1);
    }
  }
}
