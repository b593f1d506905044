/**
  Planning a build (`crates/rustlet-build/src/plan.rs`): which stages a target
  needs, and why building them in file order has every prerequisite ready. It
  rests on how `crates/rustlet-build/src/parser.rs` numbers stages.
*/
module Plan {
  import opened Common
  import Project
  import Decimals

  datatype Instruction = Copy(from: Option<string>) | Arg | OtherInstruction

  datatype Stage = Stage(
    index: nat, name: Option<string>, base: string, platform: Option<string>, instructions: seq<Instruction>)

  // ---------------------------------------------------------------- parsing

  /** What one logical line holds. */
  datatype Line =
    | From(name: Option<string>, base: string, platform: Option<string>)
    | Instr(instruction: Instruction)

  datatype ParseError = DuplicateName | BeforeFrom | NoFrom

  /** Stages numbered by position, no two of one name. */
  predicate Numbered(stages: seq<Stage>) {
    && (forall i :: 0 <= i < |stages| ==> stages[i].index == i)
    && (forall i, j :: 0 <= i < j < |stages| && stages[j].name.Some? ==> stages[i].name != stages[j].name)
  }

  function Heading(stage: Stage): Line { From(stage.name, stage.base, stage.platform) }

  function Body(instructions: seq<Instruction>): seq<Line> {
    seq(|instructions|, i requires 0 <= i < |instructions| => Instr(instructions[i]))
  }

  /** The lines a list of stages was read from. */
  function Written(stages: seq<Stage>): seq<Line> {
    if stages == [] then []
    else
      var last := stages[|stages| - 1];
      Written(stages[..|stages| - 1]) + ([Heading(last)] + Body(last.instructions))
  }

  predicate OnlyArgs(lines: seq<Line>) { forall i :: 0 <= i < |lines| ==> lines[i] == Instr(Arg) }

  /** Two `FROM` lines give the same name. */
  predicate Clash(lines: seq<Line>, i: nat, j: nat) {
    i < j < |lines| && lines[i].From? && lines[j].From? && lines[j].name.Some? && lines[i].name == lines[j].name
  }

  predicate Clashing(lines: seq<Line>) { exists i: nat, j: nat :: i < |lines| && j < |lines| && Clash(lines, i, j) }

  /** Something other than `ARG` comes before the first `FROM`. */
  predicate Misplaced(lines: seq<Line>) { exists k: nat :: k < |lines| && MisplacedAt(lines, k) }

  predicate MisplacedAt(lines: seq<Line>, k: nat) {
    k < |lines| && lines[k].Instr? && lines[k] != Instr(Arg) && forall i :: 0 <= i < k ==> lines[i] == Instr(Arg)
  }

  lemma WrittenLast(front: seq<Stage>, last: Stage)
    ensures Written(front + [last]) == Written(front) + ([Heading(last)] + Body(last.instructions))
  {
    assert (front + [last])[..|front|] == front;
  }

  lemma WrittenFrom(stages: seq<Stage>, heading: Line)
    requires heading.From?
    ensures Written(stages + [Stage(|stages|, heading.name, heading.base, heading.platform, [])]) == Written(stages) + [heading]
  {
    var stage := Stage(|stages|, heading.name, heading.base, heading.platform, []);
    WrittenLast(stages, stage);
    assert [Heading(stage)] + Body([]) == [heading];
  }

  function Grown(stages: seq<Stage>, instruction: Instruction): seq<Stage>
    requires stages != []
  {
    var last := stages[|stages| - 1];
    stages[|stages| - 1 := last.(instructions := last.instructions + [instruction])]
  }

  lemma WrittenInstruction(stages: seq<Stage>, instruction: Instruction)
    requires stages != []
    ensures Written(Grown(stages, instruction)) == Written(stages) + [Instr(instruction)]
  {
    var last, grown := stages[|stages| - 1], Grown(stages, instruction);
    assert grown[..|stages| - 1] == stages[..|stages| - 1];
    assert Body(last.instructions + [instruction]) == Body(last.instructions) + [Instr(instruction)];
  }

  predicate HasName(stages: seq<Stage>, name: Option<string>) {
    exists i :: 0 <= i < |stages| && stages[i].name == name
  }

  predicate NamesOne(line: Line, name: Option<string>) { line.From? && line.name == name }

  predicate Names(lines: seq<Line>, name: Option<string>) {
    exists i :: 0 <= i < |lines| && NamesOne(lines[i], name)
  }

  lemma NamesEither(a: seq<Line>, b: seq<Line>, name: Option<string>)
    ensures Names(a + b, name) <==> Names(a, name) || Names(b, name)
  {
    if i :| 0 <= i < |a| && NamesOne(a[i], name) {
      assert NamesOne((a + b)[i], name);
    }
    if i :| 0 <= i < |b| && NamesOne(b[i], name) {
      assert NamesOne((a + b)[|a| + i], name);
    }
  }

  lemma NamesBlock(stage: Stage, name: Option<string>)
    ensures Names([Heading(stage)] + Body(stage.instructions), name) <==> stage.name == name
  {
    var block := [Heading(stage)] + Body(stage.instructions);
    assert NamesOne(block[0], name) <==> stage.name == name;
  }

  lemma HasNameLast(front: seq<Stage>, last: Stage, name: Option<string>)
    ensures HasName(front + [last], name) <==> HasName(front, name) || last.name == name
  {
    if i :| 0 <= i < |front| && front[i].name == name {
      assert (front + [last])[i].name == name;
    }
    assert (front + [last])[|front|] == last;
  }

  /** The stages' names are those of the `FROM` lines. */
  lemma {:induction false} WrittenNames(stages: seq<Stage>, name: Option<string>)
    ensures HasName(stages, name) <==> Names(Written(stages), name)
  {
    if stages != [] {
      var front, last := stages[..|stages| - 1], stages[|stages| - 1];
      assert stages == front + [last];
      WrittenNames(front, name);
      HasNameLast(front, last, name);
      NamesBlock(last, name);
      NamesEither(Written(front), [Heading(last)] + Body(last.instructions), name);
    }
  }

  /** The stages read from the first `n` lines, of which `k` come before the first `FROM`. */
  ghost predicate Read(lines: seq<Line>, n: nat, k: nat, stages: seq<Stage>) {
    && k <= n <= |lines| && OnlyArgs(lines[..k])
    && (if stages == [] then k == n else k < n && lines[k].From?)
    && Numbered(stages) && Written(stages) == lines[k..n]
    && forall i: nat, j: nat :: j < n ==> !Clash(lines, i, j)
  }

  lemma ReadAtEnd(lines: seq<Line>, k: nat, stages: seq<Stage>)
    requires Read(lines, |lines|, k, stages)
    ensures if stages == [] then OnlyArgs(lines) else !OnlyArgs(lines) && !Clashing(lines) && !Misplaced(lines)
    ensures Written(stages) == lines[k..]
  {
    assert lines[k..|lines|] == lines[k..];
    if stages == [] {
      assert lines[..k] == lines;
    } else {
      assert lines[k].From?;
      assert forall i :: 0 <= i < k ==> lines[i] == lines[..k][i];
    }
  }

  lemma ReadInstruction(lines: seq<Line>, n: nat, k: nat, stages: seq<Stage>)
    requires Read(lines, n, k, stages) && n < |lines| && lines[n].Instr?
    ensures stages != [] ==> Read(lines, n + 1, k, Grown(stages, lines[n].instruction))
    ensures stages == [] && lines[n] == Instr(Arg) ==> Read(lines, n + 1, n + 1, stages)
    ensures stages == [] && lines[n] != Instr(Arg) ==> Misplaced(lines)
  {
    if stages != [] {
      assert lines[k..n + 1] == lines[k..n] + [lines[n]];
      WrittenInstruction(stages, lines[n].instruction);
    } else if lines[n] == Instr(Arg) {
      assert lines[..n + 1] == lines[..n] + [lines[n]];
    } else {
      assert forall i :: 0 <= i < n ==> lines[i] == lines[..n][i];
      assert MisplacedAt(lines, n);
    }
  }

  /** A name is new among the stages exactly if no `FROM` line before gave it. */
  lemma NameRead(lines: seq<Line>, n: nat, k: nat, stages: seq<Stage>)
    requires Read(lines, n, k, stages) && n < |lines| && lines[n].From? && lines[n].name.Some?
    ensures HasName(stages, lines[n].name) <==> exists i: nat :: i < n && Clash(lines, i, n)
  {
    var name, w := lines[n].name, Written(stages);
    WrittenNames(stages, name);
    assert forall i :: 0 <= i < k ==> lines[i] == lines[..k][i];
    if i :| 0 <= i < |w| && NamesOne(w[i], name) {
      assert w[i] == lines[k + i];
      assert Clash(lines, k + i, n);
    }
    if i: nat :| i < n && Clash(lines, i, n) {
      assert i >= k && w[i - k] == lines[i];
      assert NamesOne(w[i - k], name);
    }
  }

  lemma ReadFrom(lines: seq<Line>, n: nat, k: nat, stages: seq<Stage>)
    requires Read(lines, n, k, stages) && n < |lines| && lines[n].From?
    requires lines[n].name.Some? ==> !HasName(stages, lines[n].name)
    ensures var l := lines[n]; Read(lines, n + 1, k, stages + [Stage(|stages|, l.name, l.base, l.platform, [])])
  {
    assert lines[k..n + 1] == lines[k..n] + [lines[n]];
    WrittenFrom(stages, lines[n]);
    if lines[n].name.Some? {
      NameRead(lines, n, k, stages);
    }
  }

  /** The parser's stages: numbered, with distinct names, and nothing of the file lost. */
  method ParseStages(lines: seq<Line>) returns (r: Result<seq<Stage>, ParseError>)
    ensures r.Ok? ==> r.value != [] && Numbered(r.value)
    ensures r.Ok? ==> exists k: nat :: k <= |lines| && OnlyArgs(lines[..k]) && Written(r.value) == lines[k..]
    ensures r.Err? <==> OnlyArgs(lines) || Clashing(lines) || Misplaced(lines)
  {
    var stages: seq<Stage> := [];
    ghost var k: nat := 0;
    for n := 0 to |lines|
      invariant Read(lines, n, k, stages)
    {
      match lines[n]
      case From(name, base, platform) =>
        if name.Some? && HasName(stages, name) {
          NameRead(lines, n, k, stages);
          return Err(DuplicateName);
        }
        ReadFrom(lines, n, k, stages);
        stages := stages + [Stage(|stages|, name, base, platform, [])];
      case Instr(instruction) =>
        ReadInstruction(lines, n, k, stages);
        if stages != [] {
          stages := Grown(stages, instruction);
        } else if instruction == Arg {
          k := n + 1;
        } else {
          return Err(BeforeFrom);
        }
    }
    ReadAtEnd(lines, k, stages);
    return if stages == [] then Err(NoFrom) else Ok(stages);
  }

  // ------------------------------------------------------------ names, bases

  function LowerChar(c: char): (r: char)
    ensures 65 <= c as int <= 90 ==> r as int == c as int + 32
    ensures !(65 <= c as int <= 90) ==> r == c
  {
    if 'A' <= c <= 'Z' then c - 'A' + 'a' else c
  }

  function Lower(s: string): string { seq(|s|, i requires 0 <= i < |s| => LowerChar(s[i])) }

  /** `stage_named`: the first stage of that name among the first `before`. */
  function StageNamed(file: seq<Stage>, name: string, before: nat, from: nat := 0): (r: Option<nat>)
    requires from <= before <= |file| && Numbered(file)
    ensures r.Some? ==> from <= r.value < before && file[r.value].name == Some(Lower(name))
    ensures r.None? ==> forall i :: from <= i < before ==> file[i].name != Some(Lower(name))
    decreases before - from
  {
    if from == before then None
    else if file[from].name == Some(Lower(name)) then Some(file[from].index)
    else StageNamed(file, name, before, from + 1)
  }

  /** With distinct names, being found is having the name: the search order does not matter. */
  lemma NamedOnce(file: seq<Stage>, name: string, before: nat, i: nat)
    requires before <= |file| && Numbered(file)
    ensures StageNamed(file, name, before) == Some(i) <==> i < before && file[i].name == Some(Lower(name))
  {
    var r := StageNamed(file, name, before);
    if r.Some? && i < before && file[i].name == Some(Lower(name)) {
      assert file[r.value].name == file[i].name;
    }
  }

  predicate AllDigits(s: string) { s != "" && Decimals.AllDigits(s) }

  /** `--target`; the last stage without one. */
  function TargetStage(file: seq<Stage>, target: Option<string>): (r: Option<nat>)
    requires file != [] && Numbered(file)
    ensures r.Some? ==> r.value < |file|
  {
    if target.None? || target.value == "" then Some(|file| - 1)
    else if StageNamed(file, target.value, |file|).Some? then StageNamed(file, target.value, |file|)
    else if AllDigits(target.value) && Decimals.NumberOf(target.value) < |file| then Some(Decimals.NumberOf(target.value))
    else None
  }

  datatype Source = FromStage(index: nat) | FromImage(name: string)

  /** `resolve_from`: a number or a name must be of an earlier stage; anything else is an image. */
  function ResolveFrom(file: seq<Stage>, current: nat, from: string): (r: Option<Source>)
    requires current < |file| && Numbered(file)
    ensures r.Some? && r.value.FromStage? ==> r.value.index < current
  {
    if AllDigits(from) then
      if Decimals.NumberOf(from) < current then Some(FromStage(Decimals.NumberOf(from))) else None
    else match StageNamed(file, from, |file|)
      case Some(i) => if i < current then Some(FromStage(i)) else None
      case None => Some(FromImage(from))
  }

  datatype Base = Scratch | OnStage(index: nat) | OnImage(name: string)

  /** How `FROM` lines' words are expanded with the global args, or fail to be. */
  type Expander = string -> Option<string>

  predicate BaseRefused(expand: Expander, stage: Stage) {
    || expand(stage.base).None?
    || expand(stage.base).value == ""
    || (stage.platform.Some? && expand(stage.platform.value) != Some("linux/amd64"))
  }

  function BaseOf(file: seq<Stage>, i: nat, base: string): (r: Base)
    requires i < |file| && Numbered(file)
    ensures r.OnStage? ==> r.index < i
  {
    if Lower(base) == "scratch" then Scratch
    else match StageNamed(file, base, i)
      case Some(j) => OnStage(j)
      case None => OnImage(base)
  }

  /** The bases of the first `n` stages. */
  predicate BasesAre(file: seq<Stage>, expand: Expander, bases: seq<Base>, n: nat)
    requires Numbered(file)
  {
    n == |bases| <= |file| && forall i :: 0 <= i < n ==>
      !BaseRefused(expand, file[i]) && bases[i] == BaseOf(file, i, expand(file[i].base).value)
  }

  /** What `--target` means: a stage's name, else its number; nothing or the empty text is the last stage. */
  lemma TargetMeans(file: seq<Stage>, target: Option<string>, i: nat)
    requires file != [] && Numbered(file) && i < |file|
    ensures target.None? || target.value == "" ==> (TargetStage(file, target) == Some(i) <==> i == |file| - 1)
    ensures target.Some? && target.value != "" ==>
      (TargetStage(file, target) == Some(i) <==>
        || file[i].name == Some(Lower(target.value))
        || (AllDigits(target.value) && Decimals.NumberOf(target.value) == i
            && forall j :: 0 <= j < |file| ==> file[j].name != Some(Lower(target.value))))
  {
    if target.Some? {
      NamedOnce(file, target.value, |file|, i);
    }
  }

  /** What `--from` means: a number is a stage's index, a stage's name is that stage, either only if it is earlier. */
  lemma FromMeans(file: seq<Stage>, current: nat, from: string, i: nat)
    requires current < |file| && Numbered(file) && i < |file|
    ensures AllDigits(from) ==>
      (ResolveFrom(file, current, from) == Some(FromStage(i)) <==> i < current && Decimals.NumberOf(from) == i)
    ensures !AllDigits(from) ==>
      (ResolveFrom(file, current, from) == Some(FromStage(i)) <==> i < current && file[i].name == Some(Lower(from)))
    ensures !AllDigits(from) && file[i].name == Some(Lower(from)) && current <= i ==> ResolveFrom(file, current, from).None?
  {
    NamedOnce(file, from, |file|, i);
  }

  /** A base is an earlier stage exactly if that has its name and the name is not `scratch`. */
  lemma BaseMeans(file: seq<Stage>, i: nat, base: string, j: nat)
    requires i < |file| && Numbered(file)
    ensures BaseOf(file, i, base) == OnStage(j) <==> Lower(base) != "scratch" && j < i && file[j].name == Some(Lower(base))
  {
    NamedOnce(file, base, i, j);
  }

  // ------------------------------------------------------------------ needs

  predicate CopyRefused(file: seq<Stage>, i: nat, instruction: Instruction)
    requires i < |file| && Numbered(file)
  {
    && instruction.Copy? && instruction.from.Some?
    && ('$' in instruction.from.value || ResolveFrom(file, i, instruction.from.value).None?)
  }

  predicate CopiesRefused(file: seq<Stage>, i: nat)
    requires i < |file| && Numbered(file)
  {
    exists k :: 0 <= k < |file[i].instructions| && CopyRefused(file, i, file[i].instructions[k])
  }

  function SourceOf(file: seq<Stage>, i: nat, instruction: Instruction): (r: seq<nat>)
    requires i < |file| && Numbered(file)
    ensures forall j :: j in r ==> j < i
  {
    if instruction.Copy? && instruction.from.Some? then
      match ResolveFrom(file, i, instruction.from.value)
      case Some(FromStage(j)) => [j]
      case _ => []
    else []
  }

  function SourcesOf(file: seq<Stage>, i: nat, instructions: seq<Instruction>): (r: seq<nat>)
    requires i < |file| && Numbered(file)
    ensures forall j :: j in r ==> j < i
  {
    if instructions == [] then []
    else SourcesOf(file, i, instructions[..|instructions| - 1]) + SourceOf(file, i, instructions[|instructions| - 1])
  }

  /** The stages a stage is built from: its base and what it copies from. */
  function Prerequisites(file: seq<Stage>, bases: seq<Base>, i: nat): (r: seq<nat>)
    requires i < |file| == |bases| && Numbered(file)
    ensures bases[i].OnStage? && bases[i].index < i ==> bases[i].index in r
    ensures forall j :: j in r ==> j < i
  {
    (if bases[i].OnStage? && bases[i].index < i then [bases[i].index] else []) + SourcesOf(file, i, file[i].instructions)
  }

  function StageGraph(file: seq<Stage>, bases: seq<Base>): (g: Project.Graph)
    requires |file| == |bases| && Numbered(file)
    ensures |g| == |file|
    ensures forall i, j :: Project.Edge(g, i, j) ==> j < i
  {
    seq(|file|, i requires 0 <= i < |file| => Prerequisites(file, bases, i))
  }

  /** An edge is a base or a copy from a stage, and nothing else. */
  lemma EdgeMeans(file: seq<Stage>, bases: seq<Base>, i: nat, j: nat)
    requires |file| == |bases| && Numbered(file) && i < |file|
    requires bases[i].OnStage? ==> bases[i].index < i
    ensures Project.Edge(StageGraph(file, bases), i, j) <==>
      bases[i] == OnStage(j) || exists k :: 0 <= k < |file[i].instructions| && CopiesFrom(file, i, file[i].instructions[k], j)
  {
    assert StageGraph(file, bases)[i] == Prerequisites(file, bases, i);
    SourcesMean(file, i, file[i].instructions, j);
  }

  predicate CopiesFrom(file: seq<Stage>, i: nat, instruction: Instruction, j: nat)
    requires i < |file| && Numbered(file)
  {
    && instruction.Copy? && instruction.from.Some?
    && ResolveFrom(file, i, instruction.from.value) == Some(FromStage(j))
  }

  lemma {:induction false} SourcesMean(file: seq<Stage>, i: nat, instructions: seq<Instruction>, j: nat)
    requires i < |file| && Numbered(file)
    ensures j in SourcesOf(file, i, instructions) <==>
      exists k :: 0 <= k < |instructions| && CopiesFrom(file, i, instructions[k], j)
  {
    if instructions != [] {
      var front, last := instructions[..|instructions| - 1], instructions[|instructions| - 1];
      SourcesMean(file, i, front, j);
      assert j in SourceOf(file, i, last) <==> CopiesFrom(file, i, last, j);
      if k :| 0 <= k < |front| && CopiesFrom(file, i, front[k], j) {
        assert CopiesFrom(file, i, instructions[k], j);
      }
    }
  }

  datatype PlanError = BadBase(stage: nat) | NoSuchTarget | BadCopy(stage: nat)

  datatype BuildPlan = BuildPlan(stages: seq<nat>, target: nat, bases: seq<Base>)

  /** `j` is the target or needed, at some remove, to build it. */
  ghost predicate NeededFor(file: seq<Stage>, bases: seq<Base>, target: nat, j: nat)
    requires |file| == |bases| && Numbered(file)
  {
    Project.Needed(StageGraph(file, bases), iset{target}, j)
  }

  ghost function AllNeeded(file: seq<Stage>, bases: seq<Base>, target: nat): iset<nat>
    requires |file| == |bases| && Numbered(file)
  {
    iset j: nat | NeededFor(file, bases, target, j)
  }

  /** Whatever a member is built from is a member. */
  ghost predicate Closed(g: Project.Graph, members: iset<nat>) {
    forall i, j :: i in members && Project.Edge(g, i, j) ==> j in members
  }

  lemma NeededIsClosed(file: seq<Stage>, bases: seq<Base>, target: nat)
    requires |file| == |bases| && Numbered(file) && target < |file|
    ensures target in AllNeeded(file, bases, target)
    ensures Closed(StageGraph(file, bases), AllNeeded(file, bases, target))
  {
    var g, all := StageGraph(file, bases), AllNeeded(file, bases, target);
    Project.NeededRoot(g, iset{target}, target);
    forall i, j | i in all && Project.Edge(g, i, j) ensures j in all {
      Project.NeededStep(g, iset{target}, i, j);
    }
  }

  /** The least set that holds the target and what each of its members is built from. */
  lemma NeededIsLeast(file: seq<Stage>, bases: seq<Base>, target: nat, members: iset<nat>)
    requires |file| == |bases| && Numbered(file) && target in members
    requires Closed(StageGraph(file, bases), members)
    ensures AllNeeded(file, bases, target) <= members
  {
    Project.ClosedHoldsNeeded(StageGraph(file, bases), iset{target}, members);
  }

  method ResolveBases(file: seq<Stage>, expand: Expander) returns (r: Result<seq<Base>, PlanError>)
    requires Numbered(file)
    ensures r.Ok? ==> BasesAre(file, expand, r.value, |file|)
    ensures r.Err? ==> r.error.BadBase? && r.error.stage < |file| && BaseRefused(expand, file[r.error.stage])
  {
    var bases: seq<Base> := [];
    for i := 0 to |file|
      invariant BasesAre(file, expand, bases, i)
    {
      if BaseRefused(expand, file[i]) {
        return Err(BadBase(i));
      }
      bases := bases + [BaseOf(file, i, expand(file[i].base).value)];
    }
    return Ok(bases);
  }

  lemma SourcesLast(file: seq<Stage>, i: nat, front: seq<Instruction>, last: Instruction)
    requires i < |file| && Numbered(file)
    ensures SourcesOf(file, i, front + [last]) == SourcesOf(file, i, front) + SourceOf(file, i, last)
  {
    assert (front + [last])[..|front|] == front;
  }

  /** The stage an instruction copies from, if it does. */
  method CopySource(file: seq<Stage>, i: nat, instruction: Instruction) returns (r: Option<seq<nat>>)
    requires i < |file| && Numbered(file)
    ensures if CopyRefused(file, i, instruction) then r.None? else r == Some(SourceOf(file, i, instruction))
  {
    if !instruction.Copy? || instruction.from.None? {
      return Some([]);
    }
    if '$' in instruction.from.value {
      return None;
    }
    match ResolveFrom(file, i, instruction.from.value)
    case None => return None;
    case Some(FromStage(j)) => return Some([j]);
    case Some(FromImage(_)) => return Some([]);
  }

  /** What a stage's `COPY --from`s add to the queue. */
  method CopySources(file: seq<Stage>, i: nat) returns (r: Option<seq<nat>>)
    requires i < |file| && Numbered(file)
    ensures if CopiesRefused(file, i) then r.None? else r == Some(SourcesOf(file, i, file[i].instructions))
  {
    var instructions := file[i].instructions;
    var sources: seq<nat> := [];
    for k := 0 to |instructions|
      invariant sources == SourcesOf(file, i, instructions[..k])
      invariant forall l :: 0 <= l < k ==> !CopyRefused(file, i, instructions[l])
    {
      var source := CopySource(file, i, instructions[k]);
      if source.None? {
        return None;
      }
      assert instructions[..k + 1] == instructions[..k] + [instructions[k]];
      SourcesLast(file, i, instructions[..k], instructions[k]);
      sources := sources + source.value;
    }
    assert instructions[..|instructions|] == instructions;
    return Some(sources);
  }

  function Marked(needed: seq<bool>): iset<nat> { iset i: nat | i < |needed| && needed[i] }

  function Unmarked(needed: seq<bool>): nat {
    if needed == [] then 0 else Unmarked(needed[1..]) + if needed[0] then 0 else 1
  }

  lemma {:induction false} MarkingShrinks(needed: seq<bool>, i: nat)
    requires i < |needed| && !needed[i]
    ensures Unmarked(needed[i := true]) == Unmarked(needed) - 1
  {
    if i > 0 {
      MarkingShrinks(needed[1..], i - 1);
      assert needed[i := true][1..] == needed[1..][i - 1 := true];
    } else {
      assert needed[0 := true][1..] == needed[1..];
    }
  }

  /** The worklist: exactly the stages the target needs, unless one of those has a bad `COPY --from`. */
  method MarkNeeded(file: seq<Stage>, bases: seq<Base>, target: nat, needed: array<bool>) returns (refused: Option<nat>)
    requires Numbered(file) && |file| == |bases| == needed.Length && target < |file|
    requires forall i :: 0 <= i < |bases| && bases[i].OnStage? ==> bases[i].index < i
    requires forall i :: 0 <= i < needed.Length ==> !needed[i]
    modifies needed
    ensures refused.Some? ==> refused.value < |file| && NeededFor(file, bases, target, refused.value) && CopiesRefused(file, refused.value)
    ensures refused.None? ==> forall i: nat :: i in Marked(needed[..]) <==> NeededFor(file, bases, target, i)
    ensures refused.None? ==> forall i :: 0 <= i < |file| && needed[i] ==> !CopiesRefused(file, i)
  {
    ghost var g := StageGraph(file, bases);
    var queue := [target];
    Project.NeededRoot(g, iset{target}, target);
    while queue != []
      invariant Project.Working(g, iset{target}, Marked(needed[..]), queue)
      invariant forall i :: 0 <= i < |file| && needed[i] ==> !CopiesRefused(file, i)
      decreases Unmarked(needed[..]), |queue|
    {
      var index, rest := queue[|queue| - 1], queue[..|queue| - 1];
      assert queue == rest + [index] && index in queue;
      if needed[index] {
        Project.WorkStep(g, iset{target}, Marked(needed[..]), rest, index, rest);
        assert Marked(needed[..]) + iset{index} == Marked(needed[..]);
        queue := rest;
        continue;
      }
      ghost var before := needed[..];
      MarkingShrinks(before, index);
      needed[index] := true;
      assert needed[..] == before[index := true];
      assert Marked(needed[..]) == Marked(before) + iset{index};
      if bases[index].OnStage? {
        rest := rest + [bases[index].index];
      }
      var sources := CopySources(file, index);
      if sources.None? {
        return Some(index);
      }
      assert g[index] == Prerequisites(file, bases, index);
      Project.WorkStep(g, iset{target}, Marked(before), queue[..|queue| - 1], index, rest + sources.value);
      queue := rest + sources.value;
    }
    Project.WorkDone(g, iset{target}, Marked(needed[..]));
    return None;
  }

  /** `(0..n).filter(needed)`. */
  method Filter(needed: array<bool>) returns (stages: seq<nat>)
    ensures Ascending(stages) && forall i: nat :: i in stages <==> i in Marked(needed[..])
  {
    stages := [];
    for i := 0 to needed.Length
      invariant Ascending(stages) && forall k :: 0 <= k < |stages| ==> stages[k] < i
      invariant forall j: nat :: j in stages <==> j < i && needed[j]
    {
      if needed[i] {
        stages := stages + [i];
      }
    }
  }

  predicate Ascending(s: seq<nat>) { forall i, j :: 0 <= i < j < |s| ==> s[i] < s[j] }

  /** In file order every stage comes after all it is built from. */
  lemma FileOrderIsOrdered(file: seq<Stage>, bases: seq<Base>, members: iset<nat>, stages: seq<nat>)
    requires |file| == |bases| && Numbered(file) && Ascending(stages)
    requires forall i :: i in stages <==> i in members
    requires Closed(StageGraph(file, bases), members)
    ensures Project.Ordered(StageGraph(file, bases), members, stages)
  {
    var g := StageGraph(file, bases);
    forall k, d | 0 <= k < |stages| && Project.Edge(g, stages[k], d) ensures d in stages[..k] {
      assert stages[k] in members && d < stages[k];
      var l :| 0 <= l < |stages| && stages[l] == d;
      assert l < k && stages[..k][l] == d;
    }
  }

  /** The plan's promise. */
  ghost predicate Sound(file: seq<Stage>, target: Option<string>, expand: Expander, plan: BuildPlan)
    requires file != [] && Numbered(file)
  {
    && BasesAre(file, expand, plan.bases, |file|)
    && TargetStage(file, target) == Some(plan.target)
    && Project.Ordered(StageGraph(file, plan.bases), AllNeeded(file, plan.bases, plan.target), plan.stages)
    && Ascending(plan.stages)
    && forall i :: i in plan.stages ==> i < |file| && !CopiesRefused(file, i)
  }

  /** What a file must satisfy: every base and the target are resolved, and so is every copy of a needed stage. */
  ghost predicate Plannable(file: seq<Stage>, target: Option<string>, expand: Expander)
    requires file != [] && Numbered(file)
  {
    && TargetStage(file, target).Some?
    && exists bases :: BasesAre(file, expand, bases, |file|) && CopiesResolved(file, bases, TargetStage(file, target).value)
  }

  ghost predicate CopiesResolved(file: seq<Stage>, bases: seq<Base>, target: nat)
    requires |file| == |bases| && Numbered(file)
  {
    forall i: nat :: i < |file| && NeededFor(file, bases, target, i) ==> !CopiesRefused(file, i)
  }

  lemma BasesUnique(file: seq<Stage>, expand: Expander, a: seq<Base>, b: seq<Base>)
    requires Numbered(file) && BasesAre(file, expand, a, |file|) && BasesAre(file, expand, b, |file|)
    ensures a == b
  {
  }

  /** A real reason leaves no plan. */
  lemma JustifiedMeansNone(file: seq<Stage>, target: Option<string>, expand: Expander, error: PlanError)
    requires file != [] && Numbered(file) && Justified(file, target, expand, error)
    ensures !Plannable(file, target, expand)
  {
    if error.BadCopy? && Plannable(file, target, expand) {
      var a :| BasesAre(file, expand, a, |file|) && CopiesResolved(file, a, TargetStage(file, target).value);
      var b :| BasesAre(file, expand, b, |file|) && NeededFor(file, b, TargetStage(file, target).value, error.stage);
      BasesUnique(file, expand, a, b);
    }
  }

  /** Why there is no plan. */
  ghost predicate Justified(file: seq<Stage>, target: Option<string>, expand: Expander, error: PlanError)
    requires file != [] && Numbered(file)
  {
    match error
    case BadBase(i) => i < |file| && BaseRefused(expand, file[i])
    case NoSuchTarget => TargetStage(file, target).None?
    case BadCopy(i) =>
      exists bases | BasesAre(file, expand, bases, |file|) ::
        TargetStage(file, target).Some? && i < |file| && CopiesRefused(file, i)
        && NeededFor(file, bases, TargetStage(file, target).value, i)
  }

  /**
    `plan`: the stages the target needs, in file order, every one after its
    prerequisites; or a base, a target or a needed stage's copy that cannot be
    resolved.
  */
  method PlanBuild(file: seq<Stage>, target: Option<string>, expand: Expander) returns (r: Result<BuildPlan, PlanError>)
    requires file != [] && Numbered(file)
    ensures r.Ok? <==> Plannable(file, target, expand)
    ensures r.Ok? ==> Sound(file, target, expand, r.value)
    ensures r.Err? ==> Justified(file, target, expand, r.error)
  {
    var resolved := ResolveBases(file, expand);
    if resolved.Err? {
      JustifiedMeansNone(file, target, expand, resolved.error);
      return Err(resolved.error);
    }
    var bases, found := resolved.value, TargetStage(file, target);
    if found.None? {
      return Err(NoSuchTarget);
    }
    var needed := new bool[|file|](_ => false);
    var refused := MarkNeeded(file, bases, found.value, needed);
    if refused.Some? {
      JustifiedMeansNone(file, target, expand, BadCopy(refused.value));
      return Err(BadCopy(refused.value));
    }
    var stages := Filter(needed);
    ghost var members := AllNeeded(file, bases, found.value);
    NeededIsClosed(file, bases, found.value);
    FileOrderIsOrdered(file, bases, members, stages);
    assert CopiesResolved(file, bases, found.value);
    return Ok(BuildPlan(stages, found.value, bases));
  }
}
