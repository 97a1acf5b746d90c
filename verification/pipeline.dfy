/** `bin/preprocess.py`: the per-record chain of `augment_cif`, the worker
    that drains the task queue, the progress listener and the merge of the
    workers' lists. The queues are fields of one object and the workers run
    one after another. */
module Pipeline {

  import opened Outcomes
  import opened Text
  import Extract
  import DataLine
  import SymmetryLoop
  import AtomProps
  import Rounding

  /** The four transforms after the Z filter, in order, produce `out`. */
  predicate ChainYields(cif: string, oxi: bool, d: int, chem: AtomProps.Chemistry, out: string) {
    && DataLine.ReplaceDataFormula(cif, DataLine.NoIndex).Ok?
    && var named := DataLine.ReplaceDataFormula(cif, DataLine.NoIndex).value;
       var withProps := AtomProps.AddAtomicPropsBlock(SymmetryLoop.Semisymmetrize(named), oxi, chem);
       withProps.Ok? && Rounding.RoundNumbers(withProps.value, d) == Ok(out)
  }

  /** Z is read and is not zero. */
  predicate NonzeroZ(cif: string) {
    Extract.FormulaUnits(cif).Ok? && Extract.FormulaUnits(cif).value != 0
  }

  /** The body of the `try` in `augment_cif`: the Z filter, then the formula
      rewrite, semisymmetrization, the properties block and rounding. Any
      failure, the forced one for Z = 0 included, drops the record. */
  function Augment(cif: string, oxi: bool, d: int, chem: AtomProps.Chemistry): (r: Result<string>)
    ensures Extract.FormulaUnits(cif) == Ok(0) ==> r == Err(ZeroFormulaUnits)
    ensures Extract.FormulaUnits(cif).Err? ==> r == Err(Extract.FormulaUnits(cif).error)
    ensures r.Ok? ==> NonzeroZ(cif) && ChainYields(cif, oxi, d, chem, r.value)
    ensures forall out :: NonzeroZ(cif) && ChainYields(cif, oxi, d, chem, out) ==> r == Ok(out)
  {
    var z :- Extract.FormulaUnits(cif);
    if z == 0 then Err(ZeroFormulaUnits)
    else
      var named :- DataLine.ReplaceDataFormula(cif, DataLine.NoIndex);
      var collapsed := SymmetryLoop.Semisymmetrize(named);
      var withProps :- AtomProps.AddAtomicPropsBlock(collapsed, oxi, chem);
      Rounding.RoundNumbers(withProps, d)
  }

  /** The per-record chain with the run's settings fixed. */
  function Chain(oxi: bool, d: int, chem: AtomProps.Chemistry): string -> Result<string> {
    cif => Augment(cif, oxi, d, chem)
  }

  /** What a worker keeps from `tasks`, in the order it takes them, when
      each record goes through `step` and a failure drops it. */
  function Kept(tasks: seq<string>, step: string -> Result<string>): seq<string>
  {
    if tasks == [] then []
    else
      var last := step(tasks[|tasks| - 1]);
      Kept(tasks[..|tasks| - 1], step) + if last.Ok? then [last.value] else []
  }

  /** No more kept records than records taken. */
  lemma {:induction false} KeptLength(tasks: seq<string>, step: string -> Result<string>)
    ensures |Kept(tasks, step)| <= |tasks|
  {
    if tasks != [] {
      KeptLength(tasks[..|tasks| - 1], step);
    }
  }

  /** Every kept record is the step's result for one of the records taken. */
  lemma {:induction false} KeptFrom(tasks: seq<string>, step: string -> Result<string>, k: nat)
    requires k < |Kept(tasks, step)|
    ensures exists i :: 0 <= i < |tasks| && step(tasks[i]) == Ok(Kept(tasks, step)[k])
  {
    var front := tasks[..|tasks| - 1];
    if k < |Kept(front, step)| {
      KeptFrom(front, step, k);
      var i :| 0 <= i < |front| && step(front[i]) == Ok(Kept(front, step)[k]);
      assert tasks[i] == front[i];
    } else {
      assert step(tasks[|tasks| - 1]) == Ok(Kept(tasks, step)[k]);
    }
  }

  /** Workers that take the records in consecutive runs keep, together,
      what one worker keeps from all of them. */
  lemma {:induction false} KeptAppend(a: seq<string>, b: seq<string>, step: string -> Result<string>)
    ensures Kept(a + b, step) == Kept(a, step) + Kept(b, step)
    decreases |b|
  {
    if b == [] {
      assert a + b == a;
    } else {
      var b' := b[..|b| - 1];
      assert (a + b)[..|a + b| - 1] == a + b';
      assert (a + b)[|a + b| - 1] == b[|b| - 1];
      KeptAppend(a, b', step);
    }
  }

  /** A record the step rejects leaves the output as if it had not been
      there. */
  lemma Dropped(a: seq<string>, cif: string, b: seq<string>, step: string -> Result<string>)
    requires step(cif).Err?
    ensures Kept(a + [cif] + b, step) == Kept(a + b, step)
  {
    KeptAppend(a + [cif], b, step);
    KeptAppend(a, b, step);
    assert (a + [cif])[..|a|] == a;
  }

  /** A record with Z = 0 never reaches the output. */
  lemma ZeroDropped(a: seq<string>, cif: string, b: seq<string>, oxi: bool, d: int, chem: AtomProps.Chemistry)
    requires Extract.FormulaUnits(cif) == Ok(0)
    ensures Kept(a + [cif] + b, Chain(oxi, d, chem)) == Kept(a + b, Chain(oxi, d, chem))
  {
    assert Chain(oxi, d, chem)(cif) == Err(ZeroFormulaUnits);
    Dropped(a, cif, b, Chain(oxi, d, chem));
  }

  /** Taking the head of the queue. */
  lemma QueueStep(orig: seq<string>, taken: nat)
    requires taken < |orig|
    ensures orig[taken..][0] == orig[taken] && orig[taken..][1..] == orig[taken + 1..]
  {
  }

  /** One more record taken adds its result, if the step accepts it. */
  lemma KeptStep(orig: seq<string>, taken: nat, step: string -> Result<string>)
    requires taken < |orig|
    ensures var r := step(orig[taken]);
            Kept(orig[..taken + 1], step) == Kept(orig[..taken], step) + if r.Ok? then [r.value] else []
  {
    assert orig[..taken + 1][..taken] == orig[..taken];
  }

  function Ones(n: nat): (r: seq<int>)
    ensures |r| == n && forall i :: 0 <= i < n ==> r[i] == 1
  {
    seq(n, _ => 1)
  }

  /** The three manager queues: records to process, progress ticks, and the
      lists the workers publish. */
  class Queues {
    var tasks: seq<string>
    var ticks: seq<int>
    var results: seq<seq<string>>

    constructor ()
      ensures tasks == [] && ticks == [] && results == []
    {
      tasks, ticks, results := [], [], [];
    }

    /** `task_queue.put(cif)` */
    method Put(cif: string)
      modifies this
      ensures tasks == old(tasks) + [cif]
      ensures ticks == old(ticks) && results == old(results)
    {
      tasks := tasks + [cif];
    }

    /** `augment_cif`: take records until the task queue is empty, keep the
        ones the chain accepts, put one tick per record taken, and publish
        the kept list at the end. `chain` is the per-record chain with the
        run's settings, `Chain(oxi, d, chem)` in a run. */
    method AugmentCif(chain: string -> Result<string>)
      modifies this
      ensures tasks == []
      ensures ticks == old(ticks) + Ones(|old(tasks)|)
      ensures results == old(results) + [Kept(old(tasks), chain)]
    {
      var augmented: seq<string> := [];
      ghost var orig := tasks;
      ghost var taken := 0;
      while tasks != []
        invariant taken <= |orig| && tasks == orig[taken..]
        invariant ticks == old(ticks) + Ones(taken)
        invariant augmented == Kept(orig[..taken], chain)
        invariant results == old(results)
        decreases |tasks|
      {
        var cif := tasks[0];
        QueueStep(orig, taken);
        KeptStep(orig, taken, chain);
        tasks := tasks[1..];
        var r := chain(cif);
        if r.Ok? {
          augmented := augmented + [r.value];
        }
        ticks := ticks + [1];
        taken := taken + 1;
      }
      assert orig[..taken] == orig;
      results := results + [augmented];
    }
  }

  /** Sum of the ticks. */
  function Total(ticks: seq<int>): int {
    if ticks == [] then 0 else Total(ticks[..|ticks| - 1]) + ticks[|ticks| - 1]
  }

  /** The first count `k >= from` of ticks whose sum is `n`. */
  function StopSearch(ticks: seq<int>, n: int, from: nat): (r: Option<nat>)
    requires from >= 1
    ensures r.Some? ==> from <= r.value <= |ticks| && Total(ticks[..r.value]) == n
    ensures r.Some? ==> forall j :: from <= j < r.value ==> Total(ticks[..j]) != n
    ensures r.None? ==> forall j :: from <= j <= |ticks| ==> Total(ticks[..j]) != n
    decreases |ticks| + 1 - from
  {
    if from > |ticks| then None
    else if Total(ticks[..from]) == n then Some(from)
    else StopSearch(ticks, n, from + 1)
  }

  /** After how many ticks the listener stops: the first time the running
      total, checked after each `get`, equals `n`. */
  function StopPoint(ticks: seq<int>, n: int): Option<nat> {
    StopSearch(ticks, n, 1)
  }

  /** `progress_listener(queue, n)` over the ticks that will ever arrive:
      it stops at the stop point, or else takes them all and then waits
      forever. */
  method ProgressListener(ticks: seq<int>, n: int) returns (taken: nat, stopped: bool)
    ensures stopped <==> StopPoint(ticks, n).Some?
    ensures stopped ==> taken == StopPoint(ticks, n).value
    ensures !stopped ==> taken == |ticks|
  {
    var tot := 0;
    taken := 0;
    while taken < |ticks|
      invariant taken <= |ticks| && tot == Total(ticks[..taken])
      invariant forall j :: 1 <= j <= taken ==> Total(ticks[..j]) != n
    {
      assert ticks[..taken + 1][..taken] == ticks[..taken];
      tot := tot + ticks[taken];
      taken := taken + 1;
      if tot == n {
        return taken, true;
      }
    }
    return taken, false;
  }

  lemma {:induction false} OnesTotal(ticks: seq<int>, k: nat)
    requires k <= |ticks| && forall i :: 0 <= i < |ticks| ==> ticks[i] == 1
    ensures Total(ticks[..k]) == k
  {
    if k > 0 {
      assert ticks[..k][..k - 1] == ticks[..k - 1];
      OnesTotal(ticks, k - 1);
    }
  }

  /** With one tick per record, the listener stops after exactly `n` ticks. */
  lemma UnitTicksStop(ticks: seq<int>, n: int)
    requires 1 <= n <= |ticks| && forall i :: 0 <= i < |ticks| ==> ticks[i] == 1
    ensures StopPoint(ticks, n) == Some(n)
  {
    OnesTotal(ticks, n);
    forall j | 1 <= j < n ensures Total(ticks[..j]) != n {
      OnesTotal(ticks, j);
    }
  }

  lemma {:induction false} PositiveTotal(ticks: seq<int>, k: nat)
    requires k <= |ticks| && forall i :: 0 <= i < |ticks| ==> ticks[i] >= 1
    ensures Total(ticks[..k]) >= k
  {
    if k > 0 {
      assert ticks[..k][..k - 1] == ticks[..k - 1];
      PositiveTotal(ticks, k - 1);
    }
  }

  /** With `n = 0` the total is checked only after a tick has arrived, so
      the listener never stops. */
  lemma ZeroNeverStops(ticks: seq<int>)
    requires forall i :: 0 <= i < |ticks| ==> ticks[i] >= 1
    ensures StopPoint(ticks, 0) == None
  {
    forall j | 1 <= j <= |ticks| ensures Total(ticks[..j]) != 0 {
      PositiveTotal(ticks, j);
    }
  }

  /** The drain of `result_queue` in `__main__`: the published lists, one
      after another. */
  method MergeResults(results: seq<seq<string>>) returns (merged: seq<string>)
    ensures merged == Concat(results)
  {
    merged := [];
    for i := 0 to |results|
      invariant merged == Concat(results[..i])
    {
      ConcatAppend(results[..i], results[i]);
      assert results[..i + 1] == results[..i] + [results[i]];
      merged := merged + results[i];
    }
    assert results[..|results|] == results;
  }

  /** The records of the input pairs; the identifiers are dropped. */
  function Records(pairs: seq<(string, string)>): (r: seq<string>)
    ensures |r| == |pairs| && forall i :: 0 <= i < |pairs| ==> r[i] == pairs[i].1
  {
    seq(|pairs|, i requires 0 <= i < |pairs| => pairs[i].1)
  }

  /** `__main__` with the workers run one after another: enqueue the records,
      run `workers` workers with the per-record chain (`Chain(oxi, d, chem)`
      in a run), the listener over the ticks, and merge. The output is what
      one worker keeps from all records; the run finishes only when there is
      a worker and a record, since otherwise the listener never sees its
      total. */
  method Preprocess(pairs: seq<(string, string)>, chain: string -> Result<string>, workers: int)
    returns (out: seq<string>, finished: bool)
    ensures workers >= 1 ==> out == Kept(Records(pairs), chain)
    ensures workers < 1 ==> out == []
    ensures |out| <= |pairs|
    ensures finished <==> workers >= 1 && |pairs| >= 1
  {
    var q := new Queues();
    for i := 0 to |pairs|
      invariant q.tasks == Records(pairs)[..i] && q.ticks == [] && q.results == []
    {
      assert Records(pairs)[..i + 1] == Records(pairs)[..i] + [pairs[i].1];
      q.Put(pairs[i].1);
    }
    assert Records(pairs)[..|pairs|] == Records(pairs);
    var all := Records(pairs);
    var w := 0;
    while w < workers
      invariant w >= 0 && (w <= workers || w == 0)
      invariant w == 0 ==> q.tasks == all && q.ticks == [] && q.results == []
      invariant w >= 1 ==> q.tasks == [] && q.ticks == Ones(|pairs|)
      invariant w >= 1 ==> Concat(q.results) == Kept(all, chain)
      decreases workers - w
    {
      ghost var before := q.results;
      q.AugmentCif(chain);
      if w >= 1 {
        ConcatAppend(before, Kept([], chain));
        assert q.ticks == Ones(|pairs|);
      } else {
        ConcatAppend([], Kept(all, chain));
        assert [] + [Kept(all, chain)] == [Kept(all, chain)];
      }
      w := w + 1;
    }
    var taken;
    taken, finished := ProgressListener(q.ticks, |pairs|);
    if workers >= 1 && |pairs| >= 1 {
      UnitTicksStop(q.ticks, |pairs|);
    } else if workers >= 1 {
      assert StopPoint(q.ticks, 0) == None;
    } else {
      assert q.ticks == [];
    }
    out := MergeResults(q.results);
    KeptLength(all, chain);
  }
}
