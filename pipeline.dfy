/**
 * `execute_pipes`: split the expanded line on `|`, create `N - 1` pipes in a descriptor
 * array of `2(N - 1)` slots (pipe `p` puts its read end in slot `2p` and its write end in
 * slot `2p + 1`), fork one child per stage, wire each child's standard streams to its
 * neighbours' pipe ends, close every slot in every child and in the parent, and wait.
 * The slots are modelled by their indices; the descriptors, the forks and the waits are not.
 */
module Pipeline {
  import opened Wrappers
  import opened Store
  import opened Tokenizer
  import opened Expander
  import opened Dispatch

  /** What one child does to its standard streams before it runs its stage. */
  datatype Wiring = Wiring(stdin: Option<nat>, stdout: Option<nat>, closed: seq<nat>)

  /** One forked stage: its text, its wiring, the branch it took and the table it ends with (its own copy). */
  datatype StageRun = StageRun(command: string, wiring: Wiring, action: Action, childStore: seq<EnvVar>)

  /** One call of `execute_pipes`: slots filled by `pipe`, the stages, and the slots the parent closes. */
  datatype PipelineRun = PipelineRun(created: seq<nat>, stages: seq<StageRun>, parentClosed: seq<nat>)

  /** Size of the descriptor array for `n` stages. */
  function SlotCount(n: nat): nat
    requires n >= 1
  {
    2 * (n - 1)
  }

  /** The slot stage `i` duplicates onto its standard input. */
  function InputSlot(i: nat): Option<nat> {
    if i > 0 then Some(2 * (i - 1)) else None
  }

  /** The slot stage `i` of `n` duplicates onto its standard output. */
  function OutputSlot(i: nat, n: nat): Option<nat> {
    if i < n - 1 then Some(2 * i + 1) else None
  }

  /** Every slot of the descriptor array, in index order. */
  function AllSlots(n: nat): seq<nat>
    requires n >= 1
  {
    seq(SlotCount(n), j => j)
  }

  function ChildWiring(i: nat, n: nat): Wiring
    requires i < n
  {
    Wiring(InputSlot(i), OutputSlot(i, n), AllSlots(n))
  }

  function StageOf(vars: seq<EnvVar>, command: string, i: nat, n: nat): StageRun
    requires i < n
  {
    var a := Classify(Tokens(command, ' '));
    StageRun(command, ChildWiring(i, n), a, Effect(vars, a))
  }

  /** The whole of one `execute_pipes` call on `line` with table `vars`. */
  function Plan(vars: seq<EnvVar>, line: string): PipelineRun
    requires Tokens(line, '|') != []
  {
    var cs := Tokens(line, '|');
    var n := |cs|;
    PipelineRun(AllSlots(n), seq(n, i requires 0 <= i < n => StageOf(vars, cs[i], i, n)), AllSlots(n))
  }

  /** A slot is in the array exactly when its index is below `2(n - 1)`, and each appears once. */
  lemma AllSlotsExact(n: nat, s: nat)
    requires n >= 1
    ensures s in AllSlots(n) <==> s < SlotCount(n)
    ensures |AllSlots(n)| == SlotCount(n) && forall j :: 0 <= j < |AllSlots(n)| ==> AllSlots(n)[j] == j
  {
    if s < SlotCount(n) { assert AllSlots(n)[s] == s; }
  }

  /** Stage `i` reads slot `s` exactly when `s` is an even (read-end) slot in range and `i` is the stage after pipe `s / 2`. */
  lemma InputSlotIff(n: nat, i: nat, s: nat)
    requires i < n
    ensures InputSlot(i) == Some(s) <==> s < SlotCount(n) && s % 2 == 0 && i == s / 2 + 1
  {
  }

  /** Stage `i` writes slot `s` exactly when `s` is an odd (write-end) slot in range and `i` is the stage before pipe `s / 2`. */
  lemma OutputSlotIff(n: nat, i: nat, s: nat)
    requires i < n
    ensures OutputSlot(i, n) == Some(s) <==> s < SlotCount(n) && s % 2 == 1 && i == s / 2
  {
  }

  /** Neighbouring stages share one pipe: stage `i` writes the write end of pipe `i`, and stage `i + 1` reads its read end. */
  lemma NeighboursShareAPipe(n: nat, i: nat)
    requires i + 1 < n
    ensures OutputSlot(i, n) == Some(2 * i + 1) && InputSlot(i + 1) == Some(2 * i)
    ensures (2 * i + 1) / 2 == (2 * i) / 2 == i
  {
  }

  /** Each end of each pipe is used by exactly one stage: the read end of pipe `p` by stage `p + 1`, the write end by stage `p`. */
  lemma EachEndUsedOnce(n: nat, p: nat, i: nat)
    requires p < n - 1 && i < n
    ensures InputSlot(i) == Some(2 * p) <==> i == p + 1
    ensures OutputSlot(i, n) == Some(2 * p + 1) <==> i == p
    ensures OutputSlot(i, n) != Some(2 * p) && InputSlot(i) != Some(2 * p + 1)
  {
    InputSlotIff(n, i, 2 * p);
    OutputSlotIff(n, i, 2 * p + 1);
    InputSlotIff(n, i, 2 * p + 1);
    OutputSlotIff(n, i, 2 * p);
  }

  /**
   * In every run: the slots used by a stage lie in the array, stage `i` reads slot `2(i - 1)` iff
   * `i > 0` and writes slot `2i + 1` iff `i < N - 1`, and every allocated slot is closed in every
   * child and in the parent.
   */
  lemma PlanWiring(vars: seq<EnvVar>, line: string, i: nat, s: nat)
    requires Tokens(line, '|') != []
    requires i < |Tokens(line, '|')|
    ensures var n := |Tokens(line, '|')|; var w := Plan(vars, line).stages[i].wiring;
      && (w.stdin.Some? <==> i > 0) && (w.stdin.Some? ==> w.stdin.value == 2 * (i - 1) < SlotCount(n))
      && (w.stdout.Some? <==> i < n - 1) && (w.stdout.Some? ==> w.stdout.value == 2 * i + 1 < SlotCount(n))
    ensures s in Plan(vars, line).created <==> s < SlotCount(|Tokens(line, '|')|)
    ensures s in Plan(vars, line).created ==> s in Plan(vars, line).stages[i].wiring.closed && s in Plan(vars, line).parentClosed
  {
    AllSlotsExact(|Tokens(line, '|')|, s);
  }

  /** Each child acts on its own copy of the table: the branch its stage selects, applied to the table as it was at the fork. */
  lemma PlanChildStore(vars: seq<EnvVar>, line: string, i: nat)
    requires Tokens(line, '|') != []
    requires i < |Tokens(line, '|')|
    ensures Plan(vars, line).stages[i].command == Tokens(line, '|')[i]
    ensures Plan(vars, line).stages[i].childStore == Effect(vars, Classify(Tokens(Tokens(line, '|')[i], ' ')))
  {
  }

  /** The `pipe` loop: pipe `p` fills slots `2p` and `2p + 1`. */
  method AllocatePipes(n: nat) returns (created: seq<nat>)
    requires n >= 1
    ensures created == AllSlots(n)
  {
    created := [];
    var p := 0;
    while p < n - 1
      invariant 0 <= p <= n - 1
      invariant |created| == 2 * p && forall j :: 0 <= j < 2 * p ==> created[j] == j
    {
      created := created + [2 * p, 2 * p + 1];
      p := p + 1;
    }
  }

  /** The `close` loop run in every child and again in the parent. */
  method CloseAll(n: nat) returns (closed: seq<nat>)
    requires n >= 1
    ensures closed == AllSlots(n)
  {
    closed := [];
    var j := 0;
    while j < 2 * (n - 1)
      invariant 0 <= j <= 2 * (n - 1)
      invariant |closed| == j && forall k :: 0 <= k < j ==> closed[k] == k
    {
      closed := closed + [j];
      j := j + 1;
    }
  }

  /**
   * What child `i` of `n` does after `fork`: it holds its own copy of the table, duplicates its
   * pipe ends onto its standard streams, closes every slot and runs its stage.
   */
  method RunStage(env: Env, command: string, i: nat, n: nat) returns (stage: StageRun)
    requires env.Valid() && i < n && CommandFits(env.Bindings(), command)
    ensures stage == StageOf(env.Bindings(), command, i, n)
  {
    var child := env.Clone();
    var stdin := if i > 0 then Some(2 * (i - 1)) else None;
    var stdout := if i < n - 1 then Some(2 * i + 1) else None;
    var closed := CloseAll(n);
    var action := ExecuteCommand(child, command);
    stage := StageRun(command, Wiring(stdin, stdout, closed), action, child.Bindings());
  }

  /**
   * `execute_pipes` on an already expanded line. Each child starts from a copy of the
   * table, as `fork` gives it; the caller's table is not in the frame, so it is unchanged.
   */
  method ExecutePipes(env: Env, line: string) returns (run: PipelineRun)
    requires env.Valid()
    requires Tokens(line, '|') != []
    requires forall c :: c in Tokens(line, '|') ==> CommandFits(env.Bindings(), c)
    ensures run == Plan(env.Bindings(), line)
  {
    var commands := Tokenize(line, '|');
    var n := |commands|;
    var created := AllocatePipes(n);
    var stages: seq<StageRun> := [];
    var i := 0;
    while i < n
      invariant 0 <= i <= n
      invariant |stages| == i
      invariant forall k :: 0 <= k < i ==> stages[k] == StageOf(env.Bindings(), commands[k], k, n)
    {
      assert commands[i] in Tokens(line, '|');
      var stage := RunStage(env, commands[i], i, n);
      stages := stages + [stage];
      i := i + 1;
    }
    var parentClosed := CloseAll(n);
    run := PipelineRun(created, stages, parentClosed);
    assert stages == Plan(env.Bindings(), line).stages;
  }

  /** One iteration of the read loop for an input line: expand the line, then run it as a pipeline. */
  method RunLine(env: Env, input: string) returns (run: PipelineRun)
    requires env.Valid()
    requires Tokens(Expand(input, env.Bindings()), '|') != []
    requires forall c :: c in Tokens(Expand(input, env.Bindings()), '|') ==> CommandFits(env.Bindings(), c)
    ensures run == Plan(env.Bindings(), Expand(input, env.Bindings()))
  {
    var expanded := ExpandVariables(env, input);
    run := ExecutePipes(env, expanded);
  }

  /** The text `set KEY VALUE`. */
  function SetLine(key: string, value: string): string {
    "set" + [' '] + key + [' '] + value
  }

  /** A plain word: non-empty, with neither a space nor a `|` in it. */
  predicate Word(w: string) {
    w != [] && ' ' !in w && '|' !in w
  }

  /** `set KEY VALUE` with plain words holds no `|`, so it is a single stage. */
  lemma SetLineIsOneStage(key: string, value: string)
    requires Word(key) && Word(value)
    ensures Tokens(SetLine(key, value), '|') == [SetLine(key, value)]
  {
    assert '|' !in "set" + [' '] && '|' !in [' '];
    TokensOfField(SetLine(key, value), '|');
  }

  /** `set KEY VALUE` with plain words splits into three tokens that set KEY to VALUE. */
  lemma SetLineSetsKey(key: string, value: string)
    requires Word(key) && Word(value)
    ensures Tokens(SetLine(key, value), ' ') == ["set", key, value]
    ensures Classify(Tokens(SetLine(key, value), ' ')) == SetVar(key, value)
  {
    var rest := key + [' '] + value;
    assert SetLine(key, value) == "set" + [' '] + rest;
    assert Tokens(rest, ' ') == [key, value] by {
      TokensSplit(key, value, ' ');
      TokensOfField(key, ' ');
      TokensOfField(value, ' ');
    }
    assert Tokens("set", ' ') == ["set"] by {
      assert forall j :: 0 <= j < 3 ==> "set"[j] in "set";
      TokensOfField("set", ' ');
    }
    TokensSplit("set", rest, ' ');
    assert "set" != "cd" && "set" != "pwd";
  }

  /**
   * Every stage runs in a forked child, a lone `set` included, so the shell's own table never
   * changes: the child ends with KEY bound, and the next line's `$KEY` is still literal.
   */
  method SetDoesNotReachShell(key: string, value: string) returns (run: PipelineRun, after: string)
    requires Word(key) && Word(value)
    ensures |run.stages| == 1 && run.stages[0].childStore == [EnvVar(key, value)]
    ensures after == Placeholder(key)
  {
    var env := new Env();
    var line := SetLine(key, value);
    SetLineIsOneStage(key, value);
    SetLineSetsKey(key, value);
    assert SetBinding([], key, value) == [EnvVar(key, value)];
    run := RunLine(env, line);
    after := ExpandVariables(env, Placeholder(key));
  }
}
