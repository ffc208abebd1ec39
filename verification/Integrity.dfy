/** The output directory and its content-hash manifest (integrity.go).

The hash is a parameter: nothing here depends on SHA-256. A file write is all or nothing, and a
manifest is replaced by one atomic rename.
*/
module Integrity {
  import opened Text

  type Manifest = map<string, Bytes>

  type Hash = Bytes -> Bytes

  /** What survives a crash: the exported files and the manifest file (None: missing or corrupt). */
  datatype Durable = Durable(files: map<string, Bytes>, manifestFile: Option<Manifest>)

  /** loadManifest never fails. */
  function Load(f: Option<Manifest>): (r: Manifest) {
    match f case None => map[] case Some(m) => m
  }

  /** The manifest records the hash of the file as it is. */
  predicate Recorded(hash: Hash, d: Durable, name: string) {
    name in d.files && name in Load(d.manifestFile) && Load(d.manifestFile)[name] == hash(d.files[name])
  }

  // ---- one writer ----

  /** Whether the m-th write of a file and the m-th save of the manifest work is up to the file system. */
  class OutDir {
    const hash: Hash
    const writeOk: nat -> bool
    const saveOk: nat -> bool
    var writes: nat
    var saves: nat
    var files: map<string, Bytes>
    var manifestFile: Option<Manifest>

    constructor (hash: Hash, writeOk: nat -> bool, saveOk: nat -> bool, files: map<string, Bytes>,
                 manifestFile: Option<Manifest>)
      ensures this.hash == hash && this.writeOk == writeOk && this.saveOk == saveOk
      ensures writes == 0 && saves == 0 && this.files == files && this.manifestFile == manifestFile
    {
      this.hash, this.writeOk, this.saveOk := hash, writeOk, saveOk;
      writes, saves := 0, 0;
      this.files, this.manifestFile := files, manifestFile;
    }

    method WriteFile(name: string, content: Bytes) returns (ok: bool)
      modifies this`files, this`writes
      ensures ok == writeOk(old(writes)) && writes == old(writes) + 1
      ensures files == if ok then old(files)[name := content] else old(files)
    {
      ok := writeOk(writes);
      writes := writes + 1;
      if ok {
        files := files[name := content];
      }
    }

    method SaveManifest(m: Manifest) returns (ok: bool)
      modifies this`manifestFile, this`saves
      ensures ok == saveOk(old(saves)) && saves == old(saves) + 1
      ensures manifestFile == if ok then Some(m) else old(manifestFile)
    {
      ok := saveOk(saves);
      saves := saves + 1;
      if ok {
        manifestFile := Some(m);
      }
    }

    /** An export failed exactly when its content was not written; a manifest failure leaves the export
    standing and the manifest as it was. */
    method WriteMarkdown(name: string, content: Bytes) returns (manifestOK: bool, written: bool)
      modifies this`files, this`writes, this`manifestFile, this`saves
      ensures written == writeOk(old(writes)) && writes == old(writes) + 1
      ensures manifestOK == (written && saveOk(old(saves)))
      ensures saves == old(saves) + if written then 1 else 0
      ensures files == if written then old(files)[name := content] else old(files)
      ensures manifestFile ==
        if manifestOK then Some(Load(old(manifestFile))[name := hash(content)]) else old(manifestFile)
      ensures manifestOK ==> Recorded(hash, Durable(files, manifestFile), name)
    {
      written := WriteFile(name, content);
      if !written {
        return false, false;
      }
      var m := Load(manifestFile);
      m := m[name := hash(content)];
      manifestOK := SaveManifest(m);
    }
  }

  // ---- any number of writers ----

  datatype Job = Job(name: string, content: Bytes)

  /** Where a writer stands in writeMarkdown. The content is written before the lock is taken; the lock
  is given back after the save, whether it worked or not. */
  datatype Pc = Start | WriteFailed | Wrote | Locked | Loaded(m: Manifest) | Saved(ok: bool) | Done(ok: bool)

  datatype State = State(durable: Durable, lock: Option<nat>, pc: seq<Pc>)

  ghost predicate DistinctNames(jobs: seq<Job>) {
    forall t, u :: 0 <= t < u < |jobs| ==> jobs[t].name != jobs[u].name
  }

  ghost predicate Init(jobs: seq<Job>, d0: Durable, s: State) {
    s.durable == d0 && s.lock == None && |s.pc| == |jobs| && forall t :: 0 <= t < |jobs| ==> s.pc[t] == Start
  }

  ghost predicate Step(hash: Hash, jobs: seq<Job>, s: State, s': State) {
    |s.pc| == |jobs| && exists t :: 0 <= t < |jobs| && StepOf(hash, jobs[t], s, s', t)
  }

  /** One step of writer t. */
  ghost predicate StepOf(hash: Hash, job: Job, s: State, s': State, t: nat)
    requires t < |s.pc|
  {
    match s.pc[t]
    case Start =>
      || s' == s.(durable := s.durable.(files := s.durable.files[job.name := job.content]), pc := s.pc[t := Wrote])
      || s' == s.(pc := s.pc[t := WriteFailed])
    case Wrote => s.lock == None && s' == s.(lock := Some(t), pc := s.pc[t := Locked])
    case Locked => s' == s.(pc := s.pc[t := Loaded(Load(s.durable.manifestFile))])
    case Loaded(m) =>
      || (var saved := m[job.name := hash(job.content)];
          s' == s.(durable := s.durable.(manifestFile := Some(saved)), pc := s.pc[t := Saved(true)]))
      || s' == s.(pc := s.pc[t := Saved(false)])
    case Saved(ok) => s' == s.(lock := None, pc := s.pc[t := Done(ok)])
    case Done(_) => false
    case WriteFailed => false
  }

  predicate HoldsLock(pc: Pc) {
    pc.Locked? || pc.Loaded? || pc.Saved?
  }

  predicate HasWritten(pc: Pc) {
    !pc.Start? && !pc.WriteFailed?
  }

  predicate HasRecorded(pc: Pc) {
    pc == Saved(true) || pc == Done(true)
  }

  ghost predicate IsJobName(jobs: seq<Job>, name: string) {
    exists t :: 0 <= t < |jobs| && jobs[t].name == name
  }

  /** The file and the manifest entry of a job, by where its writer stands. */
  ghost predicate JobState(hash: Hash, job: Job, d0: Durable, d: Durable, pc: Pc) {
    && At(d.files, job.name) == (if HasWritten(pc) then Some(job.content) else At(d0.files, job.name))
    && At(Load(d.manifestFile), job.name)
       == (if HasRecorded(pc) then Some(hash(job.content)) else At(Load(d0.manifestFile), job.name))
  }

  ghost predicate Untouched(d0: Durable, d: Durable, name: string) {
    At(d.files, name) == At(d0.files, name) && At(Load(d.manifestFile), name) == At(Load(d0.manifestFile), name)
  }

  /** The durable state is a function of where the writers stand, name by name. */
  ghost predicate Inv(hash: Hash, jobs: seq<Job>, d0: Durable, s: State) {
    && |s.pc| == |jobs|
    && (forall t :: 0 <= t < |jobs| ==> (HoldsLock(s.pc[t]) <==> s.lock == Some(t)))
    && (forall t :: 0 <= t < |jobs| && s.pc[t].Loaded? ==> s.pc[t].m == Load(s.durable.manifestFile))
    && (forall t :: 0 <= t < |jobs| ==> JobState(hash, jobs[t], d0, s.durable, s.pc[t]))
    && (forall name :: !IsJobName(jobs, name) ==> Untouched(d0, s.durable, name))
  }

  /** A step of writer t touches no other name. */
  lemma StepTouchesOneName(hash: Hash, jobs: seq<Job>, d0: Durable, s: State, s': State, t: nat, name: string)
    requires Inv(hash, jobs, d0, s) && t < |jobs| && StepOf(hash, jobs[t], s, s', t) && name != jobs[t].name
    ensures Untouched(s.durable, s'.durable, name)
  {
  }

  lemma StepMovesOneJob(hash: Hash, jobs: seq<Job>, d0: Durable, s: State, s': State, t: nat)
    requires Inv(hash, jobs, d0, s) && t < |jobs| && StepOf(hash, jobs[t], s, s', t)
    ensures |s'.pc| == |jobs| && JobState(hash, jobs[t], d0, s'.durable, s'.pc[t])
    ensures forall u :: 0 <= u < |jobs| && u != t ==> s'.pc[u] == s.pc[u]
  {
    assert JobState(hash, jobs[t], d0, s.durable, s.pc[t]);
  }

  lemma StepKeepsLock(hash: Hash, jobs: seq<Job>, d0: Durable, s: State, s': State, t: nat)
    requires Inv(hash, jobs, d0, s) && t < |jobs| && StepOf(hash, jobs[t], s, s', t)
    ensures |s'.pc| == |jobs|
    ensures forall u :: 0 <= u < |jobs| ==> (HoldsLock(s'.pc[u]) <==> s'.lock == Some(u))
    ensures forall u :: 0 <= u < |jobs| && s'.pc[u].Loaded? ==> s'.pc[u].m == Load(s'.durable.manifestFile)
  {
    hide JobState;
  }

  lemma {:induction false} StepKeepsInv(hash: Hash, jobs: seq<Job>, d0: Durable, s: State, s': State)
    requires DistinctNames(jobs) && Inv(hash, jobs, d0, s) && Step(hash, jobs, s, s')
    ensures Inv(hash, jobs, d0, s')
  {
    var t :| 0 <= t < |jobs| && StepOf(hash, jobs[t], s, s', t);
    StepMovesOneJob(hash, jobs, d0, s, s', t);
    StepKeepsLock(hash, jobs, d0, s, s', t);
    hide StepOf;
    forall u | 0 <= u < |jobs| ensures JobState(hash, jobs[u], d0, s'.durable, s'.pc[u]) {
      if u != t {
        StepTouchesOneName(hash, jobs, d0, s, s', t, jobs[u].name);
        assert JobState(hash, jobs[u], d0, s.durable, s.pc[u]);
      }
    }
    forall name | !IsJobName(jobs, name) ensures Untouched(d0, s'.durable, name) {
      StepTouchesOneName(hash, jobs, d0, s, s', t, name);
      assert Untouched(d0, s.durable, name);
    }
  }

  /** A run: a start and any number of steps of any writers, in any order. */
  ghost predicate IsRun(hash: Hash, jobs: seq<Job>, d0: Durable, run: seq<State>) {
    && run != [] && Init(jobs, d0, run[0])
    && forall i :: 0 <= i < |run| - 1 ==> Step(hash, jobs, run[i], run[i + 1])
  }

  lemma {:induction false} RunKeepsInv(hash: Hash, jobs: seq<Job>, d0: Durable, run: seq<State>, i: nat)
    requires DistinctNames(jobs) && IsRun(hash, jobs, d0, run) && i < |run|
    ensures Inv(hash, jobs, d0, run[i])
  {
    if i > 0 {
      RunKeepsInv(hash, jobs, d0, run, i - 1);
      assert Step(hash, jobs, run[i - 1], run[i - 1 + 1]);
      StepKeepsInv(hash, jobs, d0, run[i - 1], run[i]);
    }
  }

  /** Safety under interleaving. In every reachable state no hash recorded before is lost, a writer that
  has recorded its hash finds it matching its file, and two writers never hold the lock together. */
  lemma NoHashIsLost(hash: Hash, jobs: seq<Job>, d0: Durable, run: seq<State>, i: nat)
    requires DistinctNames(jobs) && IsRun(hash, jobs, d0, run) && i < |run|
    ensures
      var s := run[i];
      && |s.pc| == |jobs|
      && (forall name :: name in Load(d0.manifestFile) ==> name in Load(s.durable.manifestFile))
      && (forall t :: 0 <= t < |jobs| && s.pc[t] == Done(true) ==>
            At(s.durable.files, jobs[t].name) == Some(jobs[t].content) && Recorded(hash, s.durable, jobs[t].name))
      && (forall t, u :: 0 <= t < u < |jobs| ==> !(HoldsLock(s.pc[t]) && HoldsLock(s.pc[u])))
  {
    RunKeepsInv(hash, jobs, d0, run, i);
    var s := run[i];
    assert forall t :: 0 <= t < |jobs| ==> JobState(hash, jobs[t], d0, s.durable, s.pc[t]);
    forall name | name in Load(d0.manifestFile) ensures name in Load(s.durable.manifestFile) {
      if IsJobName(jobs, name) {
        var t :| 0 <= t < |jobs| && jobs[t].name == name;
        assert JobState(hash, jobs[t], d0, s.durable, s.pc[t]);
      } else {
        assert Untouched(d0, s.durable, name);
      }
    }
  }

  /** A crash at any point. What is left on disk is a whole manifest, and it is wrong at most about files
  whose writer was between its two writes, or whose save had failed. */
  lemma CrashLeavesManifestTrue(hash: Hash, jobs: seq<Job>, d0: Durable, run: seq<State>, i: nat, name: string)
    requires DistinctNames(jobs) && IsRun(hash, jobs, d0, run) && i < |run|
    requires forall n :: n in d0.files ==> Recorded(hash, d0, n)
    requires name in run[i].durable.files && !Recorded(hash, run[i].durable, name)
    ensures |run[i].pc| == |jobs|
    ensures exists t ::
      0 <= t < |jobs| && jobs[t].name == name && HasWritten(run[i].pc[t]) && !HasRecorded(run[i].pc[t])
  {
    RunKeepsInv(hash, jobs, d0, run, i);
    var s := run[i];
    assert IsJobName(jobs, name) || Untouched(d0, s.durable, name);
    var t :| 0 <= t < |jobs| && jobs[t].name == name;
    assert JobState(hash, jobs[t], d0, s.durable, s.pc[t]);
  }

  /** The files and the manifest that the jobs produce, one after the other. */
  function Sequential(hash: Hash, jobs: seq<Job>, d0: Durable): (r: Durable) {
    if jobs == [] then d0
    else
      var job := jobs[|jobs| - 1];
      var d := Sequential(hash, jobs[..|jobs| - 1], d0);
      Durable(d.files[job.name := job.content], Some(Load(d.manifestFile)[job.name := hash(job.content)]))
  }

  lemma FrontJobName(jobs: seq<Job>, name: string)
    requires jobs != []
    ensures IsJobName(jobs[..|jobs| - 1], name) ==> IsJobName(jobs, name)
  {
  }

  lemma {:induction false} SequentialAt(hash: Hash, jobs: seq<Job>, d0: Durable)
    requires DistinctNames(jobs)
    ensures forall t :: 0 <= t < |jobs| ==> JobState(hash, jobs[t], d0, Sequential(hash, jobs, d0), Done(true))
    ensures forall name :: !IsJobName(jobs, name) ==> Untouched(d0, Sequential(hash, jobs, d0), name)
  {
    if jobs != [] {
      var n := |jobs| - 1;
      var front, last := jobs[..n], jobs[n];
      var d, d' := Sequential(hash, front, d0), Sequential(hash, jobs, d0);
      SequentialAt(hash, front, d0);
      forall name | name != last.name ensures Untouched(d, d', name) {
      }
      forall t | 0 <= t < |jobs| ensures JobState(hash, jobs[t], d0, d', Done(true)) {
        if t < n {
          assert front[t] == jobs[t] && JobState(hash, front[t], d0, d, Done(true));
          assert Untouched(d, d', jobs[t].name);
        }
      }
      forall name | !IsJobName(jobs, name) ensures Untouched(d0, d', name) {
        FrontJobName(jobs, name);
        assert jobs[n].name != name;
        assert Untouched(d, d', name);
      }
    }
  }

  lemma SameMap(m: map<string, Bytes>, m': map<string, Bytes>)
    requires forall k :: At(m, k) == At(m', k)
    ensures m == m'
  {
    assert forall k :: k in m <==> At(m, k).Some?;
    assert forall k :: k in m' <==> At(m', k).Some?;
    forall k | k in m ensures k in m' && m[k] == m'[k] {
      assert At(m, k) == At(m', k);
    }
    forall k | k in m' ensures k in m {
      assert At(m, k) == At(m', k);
    }
  }

  /** When all writers have finished well, files and manifest are those of running them one after the
  other: the interleaving makes no difference. */
  lemma AllDoneIsSequential(hash: Hash, jobs: seq<Job>, d0: Durable, run: seq<State>, i: nat)
    requires DistinctNames(jobs) && IsRun(hash, jobs, d0, run) && i < |run|
    requires |run[i].pc| == |jobs| && forall t :: 0 <= t < |jobs| ==> run[i].pc[t] == Done(true)
    ensures run[i].durable.files == Sequential(hash, jobs, d0).files
    ensures Load(run[i].durable.manifestFile) == Load(Sequential(hash, jobs, d0).manifestFile)
  {
    RunKeepsInv(hash, jobs, d0, run, i);
    SequentialAt(hash, jobs, d0);
    var d, d' := run[i].durable, Sequential(hash, jobs, d0);
    forall name ensures Untouched(d, d', name) {
      if IsJobName(jobs, name) {
        var t :| 0 <= t < |jobs| && jobs[t].name == name;
        assert JobState(hash, jobs[t], d0, d, Done(true)) && JobState(hash, jobs[t], d0, d', Done(true));
      } else {
        assert Untouched(d0, d, name) && Untouched(d0, d', name);
      }
    }
    forall k ensures At(d.files, k) == At(d'.files, k) {
      assert Untouched(d, d', k);
    }
    SameMap(d.files, d'.files);
    forall k ensures At(Load(d.manifestFile), k) == At(Load(d'.manifestFile), k) {
      assert Untouched(d, d', k);
    }
    SameMap(Load(d.manifestFile), Load(d'.manifestFile));
  }
}
