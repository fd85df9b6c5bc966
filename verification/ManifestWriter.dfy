/**
 Installing a manifest: make the directory, write a temporary file, rename it over
 the destination, restrict its mode. Each step can fail, a write can be partial,
 and the process can stop after any of them. One writer at a time.
 */
module ManifestWriter {
  import opened Wrappers

  /** What files hold; the destination's directory is not part of it. */
  type Disk = map<string, string>

  datatype WriteError = CreateDir | WriteTmp | Install | SetMode

  datatype Phase = MakeDir | OpenTmp | Writing(done: nat) | Renaming | Chmod | Done | Failed(error: WriteError)

  datatype State = State(phase: Phase, disk: Disk)

  /** `Chunk(k)` writes the next k bytes; `Fail` is the failure of the current step. */
  datatype Step = Proceed | Chunk(k: nat) | Fail

  function Tmp(dest: string): string {
    dest + ".tmp"
  }

  predicate Enabled(s: State, dest: string, data: string, step: Step) {
    match s.phase
    case Writing(n) =>
      (match step
       case Proceed => n == |data|
       case Chunk(k) => 0 < k && n + k <= |data|
       case Fail => true)
    case Renaming => step.Fail? || (step.Proceed? && Tmp(dest) in s.disk)
    case Done => false
    case Failed(_) => false
    case _ => !step.Chunk?
  }

  function Next(s: State, dest: string, data: string, step: Step): State
    requires Enabled(s, dest, data, step)
  {
    match s.phase
    case MakeDir => if step.Fail? then s.(phase := Failed(CreateDir)) else s.(phase := OpenTmp)
    case OpenTmp => if step.Fail? then s.(phase := Failed(WriteTmp)) else State(Writing(0), s.disk[Tmp(dest) := ""])
    case Writing(n) =>
      (match step
       case Fail => s.(phase := Failed(WriteTmp))
       case Chunk(k) => State(Writing(n + k), s.disk[Tmp(dest) := data[..n + k]])
       case Proceed => s.(phase := Renaming))
    case Renaming =>
      if step.Fail? then s.(phase := Failed(Install))
      else State(Chmod, (s.disk - {Tmp(dest)})[dest := s.disk[Tmp(dest)]])
    case Chmod => if step.Fail? then s.(phase := Failed(SetMode)) else s.(phase := Done)
  }

  /** The temporary file holds what has been written once it is open. */
  ghost predicate Inv(s: State, dest: string, data: string, start: Disk) {
    && (s.phase.Writing? ==> s.phase.done <= |data| && Tmp(dest) in s.disk && s.disk[Tmp(dest)] == data[..s.phase.done])
    && (s.phase.Renaming? ==> Tmp(dest) in s.disk && s.disk[Tmp(dest)] == data)
    && (Installed(s.phase) ==> dest in s.disk && s.disk[dest] == data && Tmp(dest) !in s.disk)
    && (!Installed(s.phase) ==> (dest in s.disk <==> dest in start) && (dest in start ==> s.disk[dest] == start[dest]))
    && forall p :: p != dest && p != Tmp(dest) ==>
                     (p in s.disk <==> p in start) && (p in start ==> s.disk[p] == start[p])
  }

  /** The phases after the rename. */
  predicate Installed(p: Phase) {
    p == Chmod || p == Done || p == Failed(SetMode)
  }

  /** How a write that was not cut short can end. */
  predicate IsEnd(p: Phase) {
    p.Done? || p.Failed?
  }

  function ErrorOf(end: Phase): Option<WriteError> {
    if end.Failed? then Some(end.error) else None
  }

  function Run(s: State, dest: string, data: string, steps: seq<Step>): Option<State>
    decreases |steps|
  {
    if steps == [] then Some(s)
    else if !Enabled(s, dest, data, steps[0]) then None
    else Run(Next(s, dest, data, steps[0]), dest, data, steps[1..])
  }

  lemma StepInv(s: State, dest: string, data: string, start: Disk, step: Step)
    requires Inv(s, dest, data, start) && Enabled(s, dest, data, step)
    ensures Inv(Next(s, dest, data, step), dest, data, start)
  {
    assert |Tmp(dest)| > |dest|;
    if s.phase.Writing? && step.Proceed? {
      assert data[..|data|] == data;
    }
  }

  lemma StartInv(dest: string, data: string, start: Disk)
    ensures Inv(State(MakeDir, start), dest, data, start)
  {
    assert |Tmp(dest)| > |dest|;
  }

  lemma {:induction false} RunInv(s: State, dest: string, data: string, start: Disk, steps: seq<Step>)
    requires Inv(s, dest, data, start) && Run(s, dest, data, steps).Some?
    ensures Inv(Run(s, dest, data, steps).value, dest, data, start)
    decreases |steps|
  {
    if steps != [] {
      StepInv(s, dest, data, start, steps[0]);
      RunInv(Next(s, dest, data, steps[0]), dest, data, start, steps[1..]);
    }
  }

  /**
   Stopping after any steps, whatever failed and whatever an earlier crash left
   behind, the destination holds the complete old or the complete new content: the
   new one exactly when the rename happened. Nothing but it and the temporary file
   changes.
   */
  lemma WriteIsAtomic(dest: string, data: string, start: Disk, steps: seq<Step>)
    requires Run(State(MakeDir, start), dest, data, steps).Some?
    ensures var s := Run(State(MakeDir, start), dest, data, steps).value;
            && At(s.disk, dest) == (if Installed(s.phase) then Some(data) else At(start, dest))
            && (s.phase == Done ==> At(s.disk, dest) == Some(data) && Tmp(dest) !in s.disk)
            && (s.phase.Failed? && s.phase.error != SetMode ==> At(s.disk, dest) == At(start, dest))
            && (forall p :: p != dest && p != Tmp(dest) ==> At(s.disk, p) == At(start, p))
  {
    StartInv(dest, data, start);
    RunInv(State(MakeDir, start), dest, data, start, steps);
  }

  /** An error does not mean nothing was installed: a failing chmod leaves the new content in place. */
  lemma FailedChmodInstalls(dest: string, data: string, start: Disk)
    requires data != ""
    ensures exists steps :: var r := Run(State(MakeDir, start), dest, data, steps);
                            r.Some? && r.value.phase == Failed(SetMode) && At(r.value.disk, dest) == Some(data)
  {
    var steps := [Proceed, Proceed, Chunk(|data|), Proceed, Proceed, Fail];
    var s0 := State(MakeDir, start);
    StartInv(dest, data, start);
    var s1 := Advance(s0, dest, data, start, steps);
    var s2 := Advance(s1, dest, data, start, steps[1..]);
    var s3 := Advance(s2, dest, data, start, steps[1..][1..]);
    var s4 := Advance(s3, dest, data, start, steps[1..][1..][1..]);
    var s5 := Advance(s4, dest, data, start, steps[1..][1..][1..][1..]);
    var s6 := Advance(s5, dest, data, start, steps[1..][1..][1..][1..][1..]);
    assert steps[1..][1..][1..][1..][1..][1..] == [];
    WriteIsAtomic(dest, data, start, steps);
  }

  lemma Advance(s: State, dest: string, data: string, start: Disk, steps: seq<Step>) returns (next: State)
    requires steps != [] && Inv(s, dest, data, start) && Enabled(s, dest, data, steps[0])
    ensures Inv(next, dest, data, start) && next == Next(s, dest, data, steps[0])
    ensures Run(s, dest, data, steps) == Run(next, dest, data, steps[1..])
  {
    StepInv(s, dest, data, start, steps[0]);
    next := Next(s, dest, data, steps[0]);
  }

  /** What a failing step is reported as. */
  function Blame(p: Phase): WriteError {
    match p
    case MakeDir => CreateDir
    case OpenTmp => WriteTmp
    case Writing(_) => WriteTmp
    case Renaming => Install
    case _ => SetMode
  }

  /** A write is over exactly when it succeeded or failed; until then every step can fail, and is blamed. */
  lemma EndIff(s: State, dest: string, data: string, start: Disk)
    requires Inv(s, dest, data, start)
    ensures IsEnd(s.phase) <==> forall step :: !Enabled(s, dest, data, step)
    ensures !IsEnd(s.phase) ==>
              Enabled(s, dest, data, Fail) && Next(s, dest, data, Fail) == s.(phase := Failed(Blame(s.phase)))
  {
    if !s.phase.Done? && !s.phase.Failed? {
      assert Enabled(s, dest, data, Fail);
    }
  }
}
